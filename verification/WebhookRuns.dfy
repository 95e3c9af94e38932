/** What holds after every sequence of worker callbacks, one transaction at a time. */
module WebhookRuns {
  import opened Wrappers
  import opened MaterialWebhook

  ghost function Run(s: Store, calls: seq<Call>): Store
    decreases |calls|
  {
    if calls == [] then s else Deliver(Run(s, calls[..|calls| - 1]), calls[|calls| - 1])
  }

  // Every delivery either names a course of request r or names no course at all.
  ghost predicate Addresses(s: Store, calls: seq<Call>, r: Id) {
    forall k | 0 <= k < |calls| ::
      calls[k].jobId.Some? && calls[k].jobId.value in s.courses ==> s.courses[calls[k].jobId.value].requestId == r
  }

  lemma RunPrefix(s: Store, calls: seq<Call>, i: nat)
    requires i < |calls|
    ensures Run(s, calls[..i + 1]) == Deliver(Run(s, calls[..i]), calls[i])
  {
    assert calls[..i + 1][..i] == calls[..i];
  }

  /** Callbacks neither create nor move course rows, and keep each request's cycle, week and material. */
  lemma {:induction false} RunFrame(s: Store, calls: seq<Call>)
    ensures Run(s, calls).courses.Keys == s.courses.Keys
    ensures forall j | j in s.courses :: Run(s, calls).courses[j].requestId == s.courses[j].requestId
                                         && Run(s, calls).courses[j].courseId == s.courses[j].courseId
    ensures Run(s, calls).requests.Keys == s.requests.Keys
    ensures forall q | q in s.requests :: Run(s, calls).requests[q].(status := s.requests[q].status) == s.requests[q]
    ensures Run(s, calls).materials.Keys == s.materials.Keys
    decreases |calls|
  {
    if calls != [] { RunFrame(s, calls[..|calls| - 1]); }
  }

  // ---------------------------------------------------------------- closed form of one course

  ghost function Reports(calls: seq<Call>, job: Id): seq<CourseStatus>
    decreases |calls|
  {
    if calls == [] then []
    else
      var n := |calls| - 1;
      Reports(calls[..n], job)
      + if calls[n].jobId == Some(job) && MapStatus(calls[n].status).Success? then [MapStatus(calls[n].status).value] else []
  }

  /** The first success reported decides; without one, the last report does; without any, the start. */
  ghost predicate IsSettled(start: CourseStatus, reports: seq<CourseStatus>, st: CourseStatus) {
    if exists i :: 0 <= i < |reports| && reports[i].IsSuccess()
    then exists i :: 0 <= i < |reports| && reports[i].IsSuccess() && st == reports[i]
                     && forall j :: 0 <= j < i ==> !reports[j].IsSuccess()
    else st == if reports == [] then start else reports[|reports| - 1]
  }

  lemma SettledOnce(start: CourseStatus, reports: seq<CourseStatus>, st: CourseStatus, incoming: CourseStatus)
    requires !start.IsSuccess() && IsSettled(start, reports, st)
    ensures IsSettled(start, reports + [incoming], if st.IsSuccess() then st else incoming)
  {
    var more := reports + [incoming];
    assert forall j | 0 <= j < |reports| :: more[j] == reports[j];
    assert more[|reports|] == incoming;
    if i :| 0 <= i < |reports| && reports[i].IsSuccess() && st == reports[i] && forall j :: 0 <= j < i ==> !reports[j].IsSuccess() {
      assert more[i].IsSuccess();
    }
  }

  lemma OneReport(s: Store, call: Call, job: Id)
    requires job in s.courses
    ensures job in Deliver(s, call).courses
    ensures Deliver(s, call).courses[job].status
         == if call.jobId == Some(job) && call.status != "" && MapStatus(call.status).Success? && !s.courses[job].status.IsSuccess()
            then MapStatus(call.status).value else s.courses[job].status
  {
  }

  lemma {:induction false} CourseClosedForm(s: Store, calls: seq<Call>, job: Id)
    requires job in s.courses && !s.courses[job].status.IsSuccess()
    ensures job in Run(s, calls).courses
    ensures IsSettled(s.courses[job].status, Reports(calls, job), Run(s, calls).courses[job].status)
    decreases |calls|
  {
    if calls != [] {
      var n := |calls| - 1;
      CourseClosedForm(s, calls[..n], job);
      OneReport(Run(s, calls[..n]), calls[n], job);
      if calls[n].jobId == Some(job) && MapStatus(calls[n].status).Success? {
        SettledOnce(s.courses[job].status, Reports(calls[..n], job), Run(s, calls[..n]).courses[job].status, MapStatus(calls[n].status).value);
      }
    }
  }

  lemma SettledIsUnique(start: CourseStatus, reports: seq<CourseStatus>, a: CourseStatus, b: CourseStatus)
    requires IsSettled(start, reports, a) && IsSettled(start, reports, b)
    ensures a == b
  {
    if exists i :: 0 <= i < |reports| && reports[i].IsSuccess() {
      var i :| 0 <= i < |reports| && reports[i].IsSuccess() && a == reports[i] && forall j :: 0 <= j < i ==> !reports[j].IsSuccess();
      var k :| 0 <= k < |reports| && reports[k].IsSuccess() && b == reports[k] && forall j :: 0 <= j < k ==> !reports[j].IsSuccess();
      assert i == k;
    }
  }

  // ---------------------------------------------------------------- in the words of the payload

  ghost predicate Says(call: Call, job: Id, status: string) { call.jobId == Some(job) && call.status == status }

  ghost predicate SaysSuccess(call: Call, job: Id) { Says(call, job, "completed") || Says(call, job, "completed_with_warnings") }

  ghost predicate SaysProvisional(call: Call, job: Id) { Says(call, job, "empty_bank") || Says(call, job, "failed") || Says(call, job, "processing") }

  ghost predicate NoSuccessSaid(calls: seq<Call>, job: Id) { forall k | 0 <= k < |calls| :: !SaysSuccess(calls[k], job) }

  /** A status outside the contract is the error, and no table changes. */
  lemma UnknownStatusIsError(s: Store, call: Call)
    requires call.status !in ["completed", "completed_with_warnings", "empty_bank", "failed", "processing"]
    ensures Callback(s, call) == Failure(if call.jobId.None? || call.status == "" then MissingFields else UnknownStatus(call.status))
    ensures Deliver(s, call) == s
  {
  }

  function NamedBy(status: string): CourseStatus { if status == "empty_bank" then EmptyBank else if status == "failed" then Failed else Processing }

  // The last word said of the course that is one of those.
  ghost function LastWord(calls: seq<Call>, job: Id): Option<string> {
    if calls == [] then None
    else if SaysProvisional(calls[|calls| - 1], job) then Some(calls[|calls| - 1].status)
    else LastWord(calls[..|calls| - 1], job)
  }

  lemma OneWord(s: Store, call: Call, job: Id)
    requires job in s.courses && !s.courses[job].status.IsSuccess() && !SaysSuccess(call, job)
    ensures job in Deliver(s, call).courses
    ensures SaysProvisional(call, job) ==> Deliver(s, call).courses[job].status == NamedBy(call.status)
    ensures !SaysProvisional(call, job) ==> Deliver(s, call).courses[job] == s.courses[job]
    ensures Deliver(s, call).courses[job].completedAt == s.courses[job].completedAt
  {
  }

  /**
   While no success has been said, a course stands where the last known word put it, or where it started;
   it has not been completed.
   */
  lemma {:induction false} LastWordStands(s: Store, calls: seq<Call>, job: Id)
    requires job in s.courses && !s.courses[job].status.IsSuccess() && NoSuccessSaid(calls, job)
    ensures job in Run(s, calls).courses && !Run(s, calls).courses[job].status.IsSuccess()
    ensures Run(s, calls).courses[job].completedAt == s.courses[job].completedAt
    ensures match LastWord(calls, job)
            case None => Run(s, calls).courses[job] == s.courses[job]
            case Some(word) => Run(s, calls).courses[job].status == NamedBy(word)
    decreases |calls|
  {
    if calls != [] {
      var n := |calls| - 1;
      LastWordStands(s, calls[..n], job);
      assert !SaysSuccess(calls[n], job);
      OneWord(Run(s, calls[..n]), calls[n], job);
    }
  }

  /** A redelivery is a no-op: a word that names the status a course already has changes no table, whatever else it brings. */
  lemma RedeliveryChangesNothing(s: Store, call: Call, job: Id)
    requires job in s.courses
    requires || s.courses[job].status.Completed? || s.courses[job].status.CompletedWithWarnings?
             || (s.courses[job].status.EmptyBank? && Says(call, job, "empty_bank")) || (s.courses[job].status.Failed? && Says(call, job, "failed"))
             || (s.courses[job].status.Processing? && Says(call, job, "processing"))
    requires call.jobId == Some(job)
    ensures Deliver(s, call) == s
  {
  }

  // What the first success said leaves in the course's row, given the row before it.
  ghost predicate SuccessWritten(before: CourseRow, call: Call, after: CourseRow) {
    && after.requestId == before.requestId && after.courseId == before.courseId
    && after.status == (if call.status == "completed" then Completed else CompletedWithWarnings)
    && after.completedAt == Some(call.now)
    && after.downloadUrl == (if call.downloadUrl != "" then call.downloadUrl else before.downloadUrl)
    && after.keyDownloadUrl == (if call.keyDownloadUrl != "" then call.keyDownloadUrl else before.keyDownloadUrl)
    && after.solutionDownloadUrl == (if call.solutionDownloadUrl != "" then call.solutionDownloadUrl else before.solutionDownloadUrl)
    && after.warnings == (if call.errorMessage != "" then Some(call.errorMessage) else None)
    && after.pageCount == (if call.pageCount.Some? then call.pageCount else before.pageCount)
    && after.fileSizeBytes == (if call.fileSizeBytes.Some? then call.fileSizeBytes else before.fileSizeBytes)
  }

  lemma SuccessWord(s: Store, call: Call, job: Id)
    requires job in s.courses && job in Deliver(s, call).courses
    ensures !s.courses[job].status.IsSuccess() && SaysSuccess(call, job) ==> SuccessWritten(s.courses[job], call, Deliver(s, call).courses[job])
    ensures s.courses[job].status.IsSuccess() ==> Deliver(s, call).courses[job] == s.courses[job]
  {
  }

  /**
   The first success said decides, whatever follows: the course ends with its status, its artifacts and its
   instant of completion, over the urls and sizes earlier reports left where it brings none.
   */
  lemma {:induction false} FirstSuccessDecides(s: Store, calls: seq<Call>, job: Id, i: nat)
    requires job in s.courses && !s.courses[job].status.IsSuccess()
    requires i < |calls| && SaysSuccess(calls[i], job) && NoSuccessSaid(calls[..i], job)
    ensures job in Run(s, calls[..i]).courses && job in Run(s, calls).courses
    ensures SuccessWritten(Run(s, calls[..i]).courses[job], calls[i], Run(s, calls).courses[job])
    decreases |calls|
  {
    var n := |calls| - 1;
    RunFrame(s, calls[..n]);
    LastWordStands(s, calls[..i], job);
    SuccessWord(Run(s, calls[..n]), calls[n], job);
    if i < n {
      assert calls[..n][..i] == calls[..i];
      FirstSuccessDecides(s, calls[..n], job, i);
    } else {
      assert calls[..n] == calls[..i];
    }
  }

  /** An empty bank is provisional: a course told so and completed later is completed. */
  lemma EmptyBankThenCompleted(s: Store, calls: seq<Call>, job: Id, i: nat, k: nat)
    requires job in s.courses && !s.courses[job].status.IsSuccess()
    requires i < k < |calls| && Says(calls[i], job, "empty_bank") && Says(calls[k], job, "completed") && NoSuccessSaid(calls[..k], job)
    ensures job in Run(s, calls[..i + 1]).courses && Run(s, calls[..i + 1]).courses[job].status == EmptyBank
    ensures job in Run(s, calls).courses && Run(s, calls).courses[job].status == Completed
  {
    var told := calls[..i + 1];
    forall j | 0 <= j < |told| ensures !SaysSuccess(told[j], job) { assert calls[..k][j] == told[j]; }
    LastWordStands(s, told, job);
    assert LastWord(told, job) == Some("empty_bank");
    FirstSuccessDecides(s, calls, job, k);
  }

  // ---------------------------------------------------------------- the roll-up invariant

  ghost predicate RolledUp(s: Store, r: Id) {
    r in s.requests && AllFinished(s.courses, r) ==>
      && s.requests[r].status == RollUp(s.courses, r)
      && (s.requests[r].materialId.Some? && s.requests[r].materialId.value in s.materials
          ==> s.materials[s.requests[r].materialId.value] == RollUp(s.courses, r))
  }

  lemma DeliverKeepsRolledUp(s: Store, call: Call, r: Id)
    requires RolledUp(s, r) && Addresses(s, [call], r)
    ensures RolledUp(Deliver(s, call), r)
  {
    assert [call][0] == call;
  }

  /** Whenever every course of the request is finished, request and material carry the roll-up of the courses. */
  lemma {:induction false} RollUpInvariant(s: Store, calls: seq<Call>, r: Id)
    requires RolledUp(s, r) && Addresses(s, calls, r)
    ensures RolledUp(Run(s, calls), r)
    decreases |calls|
  {
    if calls != [] {
      var n := |calls| - 1;
      RollUpInvariant(s, calls[..n], r);
      RunFrame(s, calls[..n]);
      assert Addresses(Run(s, calls[..n]), [calls[n]], r);
      DeliverKeepsRolledUp(Run(s, calls[..n]), calls[n], r);
    }
  }

  // A course of r with such a status.
  ghost predicate Course(s: Store, r: Id, j: Id, st: CourseStatus) { j in s.courses && s.courses[j].requestId == r && s.courses[j].status == st }

  /**
   What the roll-up says: once no course is pending or processing the request is failed exactly when some
   course failed, completed exactly when every course completed without warnings, and to be reviewed otherwise.
   */
  lemma RollUpMeans(s: Store, calls: seq<Call>, r: Id)
    requires RolledUp(s, r) && Addresses(s, calls, r) && r in s.requests
    requires forall j :: !Course(Run(s, calls), r, j, Pending) && !Course(Run(s, calls), r, j, Processing)
    ensures r in Run(s, calls).requests
    ensures Run(s, calls).requests[r].status == RequestFailed <==> exists j :: Course(Run(s, calls), r, j, Failed)
    ensures Run(s, calls).requests[r].status == RequestCompleted <==>
            forall j | j in Run(s, calls).courses && Run(s, calls).courses[j].requestId == r :: Course(Run(s, calls), r, j, Completed)
    ensures Run(s, calls).requests[r].status in [RequestFailed, RequestCompleted, ReviewRequired]
    ensures var m := s.requests[r].materialId;
            m.Some? && m.value in s.materials ==> m.value in Run(s, calls).materials && Run(s, calls).materials[m.value] == Run(s, calls).requests[r].status
  {
    RollUpInvariant(s, calls, r);
    RunFrame(s, calls);
    var after := Run(s, calls);
    forall j | j in after.courses && after.courses[j].requestId == r ensures after.courses[j].status.IsFinished() {
      assert !Course(after, r, j, Pending) && !Course(after, r, j, Processing);
    }
    forall st ensures SomeStatus(after.courses, r, st) <==> exists j :: Course(after, r, j, st) {
      if SomeStatus(after.courses, r, st) {
        var j :| j in after.courses && after.courses[j].requestId == r && after.courses[j].status == st;
        assert Course(after, r, j, st);
      }
    }
    if forall j | j in after.courses && after.courses[j].requestId == r :: Course(after, r, j, Completed) {
      assert !SomeStatus(after.courses, r, Failed) && !SomeStatus(after.courses, r, CompletedWithWarnings) && !SomeStatus(after.courses, r, EmptyBank);
    }
  }

  /** Until then no callback touches the request, its material or the queue; nor ever the queue of a single-course request. */
  lemma OpenRequestWaits(s: Store, call: Call, r: Id, j: Id)
    requires Addresses(s, [call], r)
    requires || Course(Deliver(s, call), r, j, Pending) || Course(Deliver(s, call), r, j, Processing)
             || forall k | k in s.courses && s.courses[k].requestId == r :: k == j
    ensures Deliver(s, call).queue == s.queue
    ensures (Course(Deliver(s, call), r, j, Pending) || Course(Deliver(s, call), r, j, Processing)) ==>
              Deliver(s, call).requests == s.requests && Deliver(s, call).materials == s.materials
  {
    assert [call][0] == call;
    if Deliver(s, call) != s && forall k | k in s.courses && s.courses[k].requestId == r :: k == j {
      assert Siblings(Deliver(s, call).courses, r) <= {j};
      OneAtMost(Siblings(Deliver(s, call).courses, r), j);
    }
  }

  lemma OneAtMost(ids: set<Id>, j: Id)
    requires ids <= {j}
    ensures |ids| <= 1
  {
    if j in ids { assert ids == {j}; } else { assert ids == {}; }
  }

  // A course gets its success by this call.
  ghost predicate Succeeds(s: Store, call: Call, job: Id) {
    && call.jobId == Some(job) && job in s.courses && job in Deliver(s, call).courses
    && !s.courses[job].status.IsSuccess() && Deliver(s, call).courses[job].status.IsSuccess()
  }

  /** Exactly the call that brings a course its success announces it, with the request's cycle and week. */
  lemma EventIffSuccess(s: Store, call: Call, job: Id)
    requires call.jobId == Some(job)
    ensures Succeeds(s, call, job) && s.courses[job].requestId in s.requests ==>
              var q := s.requests[s.courses[job].requestId];
              Deliver(s, call).events == s.events + [GeneratedEvent(q.cycleId, s.courses[job].courseId, q.weekNumber)]
    ensures !(Succeeds(s, call, job) && s.courses[job].requestId in s.requests) ==> Deliver(s, call).events == s.events
  {
  }

  /** The roll-up reads nothing of the courses but their statuses. */
  lemma RollUpReadsStatuses(a: map<Id, CourseRow>, b: map<Id, CourseRow>, r: Id)
    requires a.Keys == b.Keys
    requires forall j | j in a :: a[j].requestId == b[j].requestId && (a[j].requestId == r ==> a[j].status == b[j].status)
    ensures AllFinished(a, r) == AllFinished(b, r) && RollUp(a, r) == RollUp(b, r)
  {
    forall st ensures SomeStatus(a, r, st) == SomeStatus(b, r, st) {}
  }

  /**
   Confluence: two runs that report the same thing to each course, in the same per-course order but
   interleaved differently, and that finish every course, end with the same statuses everywhere.
   */
  lemma Confluence(s: Store, calls: seq<Call>, calls': seq<Call>, r: Id)
    requires r in s.requests && RolledUp(s, r) && Addresses(s, calls, r) && Addresses(s, calls', r)
    requires forall j | j in s.courses && s.courses[j].requestId == r :: !s.courses[j].status.IsSuccess()
    requires forall j: Id :: Reports(calls, j) == Reports(calls', j)
    requires AllFinished(Run(s, calls).courses, r)
    ensures AllFinished(Run(s, calls').courses, r)
    ensures forall j | j in s.courses && s.courses[j].requestId == r ::
              j in Run(s, calls).courses && j in Run(s, calls').courses
              && Run(s, calls).courses[j].status == Run(s, calls').courses[j].status
    ensures r in Run(s, calls).requests && r in Run(s, calls').requests
            && Run(s, calls).requests[r] == Run(s, calls').requests[r]
    ensures var m := s.requests[r].materialId;
            m.Some? && m.value in s.materials ==>
              m.value in Run(s, calls).materials && m.value in Run(s, calls').materials
              && Run(s, calls).materials[m.value] == Run(s, calls').materials[m.value]
  {
    RunFrame(s, calls);
    RunFrame(s, calls');
    RollUpInvariant(s, calls, r);
    RollUpInvariant(s, calls', r);
    forall j | j in s.courses && s.courses[j].requestId == r
      ensures Run(s, calls).courses[j].status == Run(s, calls').courses[j].status
    {
      CourseClosedForm(s, calls, j);
      CourseClosedForm(s, calls', j);
      SettledIsUnique(s.courses[j].status, Reports(calls, j), Run(s, calls).courses[j].status, Run(s, calls').courses[j].status);
    }
    RollUpReadsStatuses(Run(s, calls).courses, Run(s, calls').courses, r);
    assert Run(s, calls).requests[r].(status := s.requests[r].status) == Run(s, calls').requests[r].(status := s.requests[r].status);
  }

  // ---------------------------------------------------------------- merge dispatch

  ghost predicate Mergeable(s: Store, r: Id) { r in s.requests && |Siblings(s.courses, r)| >= 2 }

  ghost predicate Tenanted(calls: seq<Call>) { forall k | 0 <= k < |calls| :: calls[k].tenantId.Some? }

  lemma DeliverKeepsMergeable(s: Store, call: Call, r: Id)
    requires Mergeable(s, r)
    ensures Mergeable(Deliver(s, call), r)
  {
    assert Siblings(Deliver(s, call).courses, r) == Siblings(s.courses, r);
  }

  /** A merge is queued exactly when the parent enters {COMPLETED, REVIEW_REQUIRED} from outside that set. */
  lemma MergeIffEnteringFinalSuccess(s: Store, call: Call, r: Id)
    requires Mergeable(s, r) && call.tenantId.Some? && Addresses(s, [call], r)
    ensures r in Deliver(s, call).requests
    ensures Deliver(s, call).queue
         == s.queue + if !s.requests[r].status.IsFinalSuccess() && Deliver(s, call).requests[r].status.IsFinalSuccess()
                      then [MergeJob(r, call.tenantId.value)] else []
  {
    assert [call][0] == call;
    if Deliver(s, call) != s {
      var job, incoming := call.jobId.value, MapStatus(call.status).value;
      var courses := s.courses[job := WriteCourse(s.courses[job], incoming, call)];
      assert Siblings(courses, r) == Siblings(s.courses, r);
    }
  }

  lemma {:induction false} RunKeepsMergeable(s: Store, calls: seq<Call>, r: Id)
    requires Mergeable(s, r) && Addresses(s, calls, r)
    ensures Mergeable(Run(s, calls), r) && Addresses(Run(s, calls), calls, r)
    decreases |calls|
  {
    RunFrame(s, calls);
    if calls != [] {
      RunKeepsMergeable(s, calls[..|calls| - 1], r);
      DeliverKeepsMergeable(Run(s, calls[..|calls| - 1]), calls[|calls| - 1], r);
    }
  }

  ghost predicate Queues(s: Store, calls: seq<Call>, i: nat)
    requires i < |calls|
  {
    Run(s, calls[..i + 1]).queue != Run(s, calls[..i]).queue
  }

  // Delivery k reports `failed` to a course of r that holds no success: the only way back from a roll-up.
  ghost predicate FailsOpenCourse(s: Store, calls: seq<Call>, r: Id, k: nat)
    requires k < |calls|
  {
    var before := Run(s, calls[..k]).courses;
    calls[k].status == "failed" && calls[k].jobId.Some? && calls[k].jobId.value in before
    && before[calls[k].jobId.value].requestId == r && !before[calls[k].jobId.value].status.IsSuccess()
  }

  ghost predicate Settled(s: Store, r: Id) {
    r in s.requests && s.requests[r].status.IsFinalSuccess() && !SomeStatus(s.courses, r, Failed)
  }

  lemma DeliverKeepsSettled(s: Store, call: Call, r: Id)
    requires Settled(s, r) && Addresses(s, [call], r)
    requires call.status == "failed" && call.jobId.Some? && call.jobId.value in s.courses ==> s.courses[call.jobId.value].status.IsSuccess()
    ensures Settled(Deliver(s, call), r)
  {
    assert [call][0] == call;
  }

  lemma QueueingSettles(s: Store, call: Call, r: Id)
    requires Mergeable(s, r) && call.tenantId.Some? && Addresses(s, [call], r)
    requires Deliver(s, call).queue != s.queue
    ensures !Settled(s, r) && Settled(Deliver(s, call), r)
  {
    MergeIffEnteringFinalSuccess(s, call, r);
  }

  lemma {:induction false} StaysSettled(s: Store, calls: seq<Call>, r: Id, i: nat, j: nat)
    requires Mergeable(s, r) && Addresses(s, calls, r) && i <= j <= |calls|
    requires Settled(Run(s, calls[..i]), r)
    requires forall k: nat | i <= k < j :: !FailsOpenCourse(s, calls, r, k)
    ensures Settled(Run(s, calls[..j]), r)
    decreases j
  {
    if i < j {
      StaysSettled(s, calls, r, i, j - 1);
      RunPrefix(s, calls, j - 1);
      RunFrame(s, calls[..j - 1]);
      var before := Run(s, calls[..j - 1]);
      assert Addresses(before, [calls[j - 1]], r);
      assert !FailsOpenCourse(s, calls, r, j - 1);
      DeliverKeepsSettled(before, calls[j - 1], r);
    }
  }

  lemma QueuesFacts(s: Store, calls: seq<Call>, r: Id, i: nat)
    requires Mergeable(s, r) && Addresses(s, calls, r) && Tenanted(calls) && i < |calls|
    requires Queues(s, calls, i)
    ensures !Settled(Run(s, calls[..i]), r) && Settled(Run(s, calls[..i + 1]), r)
  {
    RunPrefix(s, calls, i);
    RunKeepsMergeable(s, calls[..i], r);
    RunFrame(s, calls[..i]);
    assert Addresses(Run(s, calls[..i]), [calls[i]], r);
    QueueingSettles(Run(s, calls[..i]), calls[i], r);
  }

  /** Between two merges of one request, `failed` was reported to a course that held no success. */
  lemma FailureBetweenMerges(s: Store, calls: seq<Call>, r: Id, i: nat, j: nat)
    requires Mergeable(s, r) && Addresses(s, calls, r) && Tenanted(calls) && i < j < |calls|
    requires Queues(s, calls, i) && Queues(s, calls, j)
    ensures exists k: nat | i < k < j :: FailsOpenCourse(s, calls, r, k)
  {
    QueuesFacts(s, calls, r, i);
    QueuesFacts(s, calls, r, j);
    if forall k: nat | i < k < j :: !FailsOpenCourse(s, calls, r, k) {
      StaysSettled(s, calls, r, i + 1, j);
    }
  }

  ghost predicate AllSucceeded(courses: map<Id, CourseRow>, r: Id) {
    forall j | j in courses :: courses[j].requestId == r ==> courses[j].status.IsSuccess()
  }

  /** Once every course holds a success nothing a callback does changes anything: a merge queued then is the last. */
  lemma {:induction false} SuccessIsAbsorbing(s: Store, calls: seq<Call>, r: Id, i: nat, j: nat)
    requires Addresses(s, calls, r) && i <= j <= |calls|
    requires AllSucceeded(Run(s, calls[..i]).courses, r)
    ensures Run(s, calls[..j]) == Run(s, calls[..i])
    decreases j
  {
    if i < j {
      SuccessIsAbsorbing(s, calls, r, i, j - 1);
      RunPrefix(s, calls, j - 1);
      RunFrame(s, calls[..j - 1]);
    }
  }

  lemma LastMerge(s: Store, calls: seq<Call>, r: Id, i: nat, j: nat)
    requires Addresses(s, calls, r) && i < j < |calls|
    requires Queues(s, calls, i) && AllSucceeded(Run(s, calls[..i + 1]).courses, r)
    ensures !Queues(s, calls, j)
  {
    SuccessIsAbsorbing(s, calls, r, i + 1, j);
    SuccessIsAbsorbing(s, calls, r, i + 1, j + 1);
  }

  // The state right after a generation was queued without review.
  ghost predicate Started(s: Store, r: Id) {
    Mergeable(s, r) && s.requests[r].status == RequestProcessing
    && forall j | j in s.courses && s.courses[j].requestId == r :: s.courses[j].status == Processing
  }

  ghost predicate NoFailure(calls: seq<Call>) { forall k | 0 <= k < |calls| :: calls[k].status != "failed" }

  lemma {:induction false} QueueTracksParent(s: Store, calls: seq<Call>, r: Id)
    requires Started(s, r) && Addresses(s, calls, r) && Tenanted(calls) && NoFailure(calls)
    ensures r in Run(s, calls).requests && !SomeStatus(Run(s, calls).courses, r, Failed)
    ensures if Run(s, calls).requests[r].status.IsFinalSuccess()
            then exists t :: Run(s, calls).queue == s.queue + [MergeJob(r, t)]
            else Run(s, calls).queue == s.queue
    decreases |calls|
  {
    if calls != [] {
      var n := |calls| - 1;
      var before := Run(s, calls[..n]);
      QueueTracksParent(s, calls[..n], r);
      RunKeepsMergeable(s, calls[..n], r);
      RunFrame(s, calls[..n]);
      assert Addresses(before, [calls[n]], r);
      MergeIffEnteringFinalSuccess(before, calls[n], r);
      assert calls[n].status != "failed";
      NoFailureKeepsFinalSuccess(before, calls[n], r);
    }
  }

  lemma NoFailureKeepsFinalSuccess(s: Store, call: Call, r: Id)
    requires r in s.requests && Addresses(s, [call], r) && call.status != "failed" && !SomeStatus(s.courses, r, Failed)
    ensures r in Deliver(s, call).requests && !SomeStatus(Deliver(s, call).courses, r, Failed)
    ensures s.requests[r].status.IsFinalSuccess() ==> Deliver(s, call).requests[r].status.IsFinalSuccess()
  {
    assert [call][0] == call;
  }

  /** No failure reported and every course finished: exactly one merge was queued, whatever the order. */
  lemma ExactlyOneMerge(s: Store, calls: seq<Call>, r: Id)
    requires Started(s, r) && Addresses(s, calls, r) && Tenanted(calls) && NoFailure(calls)
    requires AllFinished(Run(s, calls).courses, r)
    ensures exists t :: Run(s, calls).queue == s.queue + [MergeJob(r, t)]
  {
    QueueTracksParent(s, calls, r);
    var j :| j in Siblings(s.courses, r);
    assert !s.courses[j].status.IsFinished();
    RollUpInvariant(s, calls, r);
  }

  // ---------------------------------------------------------------- exactly when a merge is queued

  // The report gets past the guard and leaves course `job` finished, and not failed.
  ghost predicate ReportsFinish(s: Store, call: Call, job: Id) {
    && call.jobId == Some(job) && job in s.courses && call.status != "" && MapStatus(call.status).Success?
    && !Ignored(s.courses[job].status, MapStatus(call.status).value)
    && MapStatus(call.status).value.IsFinished() && !MapStatus(call.status).value.Failed?
  }

  // Every course of r but `job` is finished, and none of them failed.
  ghost predicate OthersReady(courses: map<Id, CourseRow>, r: Id, job: Id) {
    forall j | j in courses && j != job && courses[j].requestId == r :: courses[j].status.IsFinished() && !courses[j].status.Failed?
  }

  /**
   Per call, from the state before it: a merge is queued exactly when the report finishes, without
   failing, the one course the others were waiting for, and the parent is not in a final success.
   */
  lemma MergeIffLastCourseFinishes(s: Store, call: Call, r: Id)
    requires Mergeable(s, r) && call.tenantId.Some? && Addresses(s, [call], r)
    ensures Deliver(s, call).queue != s.queue <==>
            (call.jobId.Some? && ReportsFinish(s, call, call.jobId.value) && OthersReady(s.courses, r, call.jobId.value)
             && !s.requests[r].status.IsFinalSuccess())
    ensures Deliver(s, call).queue == s.queue || Deliver(s, call).queue == s.queue + [MergeJob(r, call.tenantId.value)]
  {
    assert [call][0] == call;
    MergeIffEnteringFinalSuccess(s, call, r);
    if Deliver(s, call) != s {
      var job, incoming := call.jobId.value, MapStatus(call.status).value;
      FinishedAfterReport(s.courses, r, job, WriteCourse(s.courses[job], incoming, call));
      assert Siblings(s.courses[job := WriteCourse(s.courses[job], incoming, call)], r) == Siblings(s.courses, r);
    }
  }

  lemma FinishedAfterReport(courses: map<Id, CourseRow>, r: Id, job: Id, row: CourseRow)
    requires job in courses && courses[job].requestId == r == row.requestId
    ensures var after := courses[job := row];
            (AllFinished(after, r) && !SomeStatus(after, r, Failed)) <==> (OthersReady(courses, r, job) && row.status.IsFinished() && !row.status.Failed?)
  {
    var after := courses[job := row];
    assert after[job] == row;
    if AllFinished(after, r) && !SomeStatus(after, r, Failed) {
      forall j | j in courses && j != job && courses[j].requestId == r ensures courses[j].status.IsFinished() && !courses[j].status.Failed? {
        assert after[j] == courses[j];
      }
    }
  }

  // After the first k calls every course is finished: with none failed, or with some.
  ghost predicate GoodAt(s: Store, calls: seq<Call>, r: Id, k: nat)
    requires k <= |calls|
  {
    AllFinished(Run(s, calls[..k]).courses, r) && !SomeStatus(Run(s, calls[..k]).courses, r, Failed)
  }

  ghost predicate BadAt(s: Store, calls: seq<Call>, r: Id, k: nat)
    requires k <= |calls|
  {
    AllFinished(Run(s, calls[..k]).courses, r) && SomeStatus(Run(s, calls[..k]).courses, r, Failed)
  }

  // The parent is in a final success exactly when the last all-finished moment had no failure.
  ghost predicate LastGood(s: Store, calls: seq<Call>, r: Id, k: nat)
    requires k <= |calls|
  {
    GoodAt(s, calls, r, k) || (k > 0 && !BadAt(s, calls, r, k) && LastGood(s, calls, r, k - 1))
  }

  // How often such a moment was entered from outside.
  ghost function Entries(s: Store, calls: seq<Call>, r: Id, k: nat): nat
    requires k <= |calls|
  {
    if k == 0 then 0 else Entries(s, calls, r, k - 1) + if GoodAt(s, calls, r, k) && !LastGood(s, calls, r, k - 1) then 1 else 0
  }

  lemma {:induction false} ParentTracksLastGood(s: Store, calls: seq<Call>, r: Id, k: nat)
    requires Started(s, r) && Addresses(s, calls, r) && k <= |calls|
    ensures r in Run(s, calls[..k]).requests
    ensures Run(s, calls[..k]).requests[r].status.IsFinalSuccess() <==> LastGood(s, calls, r, k)
  {
    RunKeepsMergeable(s, calls[..k], r);
    StartedIsOpen(s, r);
    RollUpInvariant(s, calls[..k], r);
    if k == 0 {
      assert calls[..0] == [];
    } else {
      ParentTracksLastGood(s, calls, r, k - 1);
      RunPrefix(s, calls, k - 1);
      RunFrame(s, calls[..k - 1]);
      if !AllFinished(Run(s, calls[..k]).courses, r) { OpenKeepsParent(Run(s, calls[..k - 1]), calls[k - 1], r); }
    }
  }

  lemma StartedIsOpen(s: Store, r: Id)
    requires Started(s, r)
    ensures !AllFinished(s.courses, r)
  {
    var j :| j in Siblings(s.courses, r);
    assert !s.courses[j].status.IsFinished();
  }

  lemma OpenKeepsParent(s: Store, call: Call, r: Id)
    requires r in s.requests && !AllFinished(Deliver(s, call).courses, r)
    requires call.jobId.Some? && call.jobId.value in s.courses ==> s.courses[call.jobId.value].requestId == r
    ensures r in Deliver(s, call).requests && Deliver(s, call).requests[r] == s.requests[r]
  {
  }

  // One call queues a merge exactly when it enters such a moment.
  lemma CallQueuesEntry(s: Store, calls: seq<Call>, r: Id, k: nat)
    requires Started(s, r) && Addresses(s, calls, r) && Tenanted(calls) && 0 < k <= |calls|
    ensures |Run(s, calls[..k]).queue|
         == |Run(s, calls[..k - 1]).queue| + if LastGood(s, calls, r, k) && !LastGood(s, calls, r, k - 1) then 1 else 0
  {
    ParentTracksLastGood(s, calls, r, k - 1);
    ParentTracksLastGood(s, calls, r, k);
    RunPrefix(s, calls, k - 1);
    RunKeepsMergeable(s, calls[..k - 1], r);
    RunFrame(s, calls[..k - 1]);
    assert Addresses(Run(s, calls[..k - 1]), [calls[k - 1]], r);
    MergeIffEnteringFinalSuccess(Run(s, calls[..k - 1]), calls[k - 1], r);
  }

  /** Every run queues exactly as many merges as it enters an all-finished, none-failed moment from outside. */
  lemma {:induction false} MergesCountEntries(s: Store, calls: seq<Call>, r: Id, k: nat)
    requires Started(s, r) && Addresses(s, calls, r) && Tenanted(calls) && k <= |calls|
    ensures |Run(s, calls[..k]).queue| == |s.queue| + Entries(s, calls, r, k)
  {
    if k == 0 {
      assert calls[..0] == [];
    } else {
      MergesCountEntries(s, calls, r, k - 1);
      CallQueuesEntry(s, calls, r, k);
    }
  }

  ghost predicate GoodBadGood(s: Store, calls: seq<Call>, r: Id, a: nat, b: nat, c: nat)
    requires a < b < c <= |calls|
  {
    GoodAt(s, calls, r, a) && BadAt(s, calls, r, b) && GoodAt(s, calls, r, c)
  }

  lemma {:induction false} LastGoodSince(s: Store, calls: seq<Call>, r: Id, k: nat) returns (a: nat)
    requires k <= |calls| && LastGood(s, calls, r, k)
    ensures a <= k && GoodAt(s, calls, r, a) && forall i | a <= i <= k :: !BadAt(s, calls, r, i)
  {
    a := k;
    if !GoodAt(s, calls, r, k) { a := LastGoodSince(s, calls, r, k - 1); }
  }

  // Once entered, and not now in a good moment, a bad one came since.
  lemma {:induction false} LeftByFailure(s: Store, calls: seq<Call>, r: Id, a: nat, k: nat) returns (b: nat)
    requires a <= k <= |calls| && GoodAt(s, calls, r, a) && !LastGood(s, calls, r, k)
    ensures a < b <= k && BadAt(s, calls, r, b)
  {
    b := k;
    if !BadAt(s, calls, r, k) { b := LeftByFailure(s, calls, r, a, k - 1); }
  }

  lemma {:induction false} EnteredOnce(s: Store, calls: seq<Call>, r: Id, k: nat) returns (a: nat)
    requires k <= |calls| && Entries(s, calls, r, k) >= 1
    ensures a <= k && GoodAt(s, calls, r, a)
  {
    a := k;
    if !GoodAt(s, calls, r, k) || LastGood(s, calls, r, k - 1) { a := EnteredOnce(s, calls, r, k - 1); }
  }

  lemma {:induction false} EnteredTwice(s: Store, calls: seq<Call>, r: Id, k: nat) returns (a: nat, b: nat, c: nat)
    requires k <= |calls| && Entries(s, calls, r, k) >= 2
    ensures a < b < c <= k && GoodBadGood(s, calls, r, a, b, c)
  {
    if GoodAt(s, calls, r, k) && !LastGood(s, calls, r, k - 1) {
      a := EnteredOnce(s, calls, r, k - 1);
      b := LeftByFailure(s, calls, r, a, k - 1);
      c := k;
    } else {
      a, b, c := EnteredTwice(s, calls, r, k - 1);
    }
  }

  lemma {:induction false} EntriesGrow(s: Store, calls: seq<Call>, r: Id, i: nat, k: nat)
    requires i <= k <= |calls|
    ensures Entries(s, calls, r, i) <= Entries(s, calls, r, k)
  {
    if i < k { EntriesGrow(s, calls, r, i, k - 1); }
  }

  lemma {:induction false} GoodWasEntered(s: Store, calls: seq<Call>, r: Id, k: nat)
    requires k <= |calls| && !GoodAt(s, calls, r, 0) && LastGood(s, calls, r, k)
    ensures Entries(s, calls, r, k) >= 1
  {
    if k > 0 && LastGood(s, calls, r, k - 1) { GoodWasEntered(s, calls, r, k - 1); }
  }

  lemma {:induction false} ReEntered(s: Store, calls: seq<Call>, r: Id, b: nat, c: nat)
    requires b <= c <= |calls| && !LastGood(s, calls, r, b) && LastGood(s, calls, r, c)
    ensures Entries(s, calls, r, c) >= Entries(s, calls, r, b) + 1
  {
    if b < c {
      if LastGood(s, calls, r, c - 1) { ReEntered(s, calls, r, b, c - 1); } else { EntriesGrow(s, calls, r, b, c - 1); }
    }
  }

  /**
   Exactly when the merge repeats: a run from a started request queues a second merge if and only if
   its courses were all finished with none failed, later all finished with some failed, and later again
   all finished with none failed.
   */
  lemma SecondMergeIff(s: Store, calls: seq<Call>, r: Id)
    requires Started(s, r) && Addresses(s, calls, r) && Tenanted(calls)
    ensures |Run(s, calls).queue| >= |s.queue| + 2 <==>
            exists a: nat, b: nat, c: nat :: a < b < c <= |calls| && GoodBadGood(s, calls, r, a, b, c)
  {
    var n := |calls|;
    assert calls[..n] == calls;
    MergesCountEntries(s, calls, r, n);
    if Entries(s, calls, r, n) >= 2 { var a, b, c := EnteredTwice(s, calls, r, n); }
    if a: nat, b: nat, c: nat :| a < b < c <= n && GoodBadGood(s, calls, r, a, b, c) {
      StartedIsOpen(s, r);
      assert calls[..0] == [];
      GoodWasEntered(s, calls, r, a);
      EntriesGrow(s, calls, r, a, b);
      ReEntered(s, calls, r, b, c);
      EntriesGrow(s, calls, r, c, n);
    }
  }

  // ---------------------------------------------------------------- the bare promise is false

  // An accepted report of tenant 9 for one course.
  ghost predicate Reporting(call: Call, job: Id, incoming: CourseStatus) {
    call.jobId == Some(job) && call.tenantId == Some(9) && call.status != "" && MapStatus(call.status) == Success(incoming)
  }

  // A request 1 with the two courses 10 and 11.
  ghost predicate TwoCourses(s: Store, a: CourseStatus, b: CourseStatus, parent: RequestStatus, queue: seq<MergeJob>) {
    && s.courses.Keys == {10, 11} && s.courses[10].requestId == 1 && s.courses[11].requestId == 1
    && s.courses[10].status == a && s.courses[11].status == b
    && 1 in s.requests && s.requests[1].status == parent && s.queue == queue
  }

  function TwoCourseRollUp(a: CourseStatus, b: CourseStatus, parent: RequestStatus): RequestStatus {
    if !a.IsFinished() || !b.IsFinished() then parent
    else if a.Failed? || b.Failed? then RequestFailed
    else if a.EmptyBank? || b.EmptyBank? || a.CompletedWithWarnings? || b.CompletedWithWarnings? then ReviewRequired
    else RequestCompleted
  }

  lemma TwoCoursesRollUp(courses: map<Id, CourseRow>, parent: RequestStatus)
    requires courses.Keys == {10, 11} && courses[10].requestId == 1 && courses[11].requestId == 1
    ensures (if AllFinished(courses, 1) then RollUp(courses, 1) else parent)
         == TwoCourseRollUp(courses[10].status, courses[11].status, parent)
  {
    assert 10 in courses && 11 in courses && forall j | j in courses :: j == 10 || j == 11;
    forall st ensures SomeStatus(courses, 1, st) <==> courses[10].status == st || courses[11].status == st {}
  }

  // Delivery i reports `incoming` for course 10 (or 11) and the guard lets it through.
  lemma TwoCoursesStep(s: Store, calls: seq<Call>, i: nat, a: CourseStatus, b: CourseStatus, parent: RequestStatus,
                       queue: seq<MergeJob>, incoming: CourseStatus, a': CourseStatus, b': CourseStatus)
    requires i < |calls| && TwoCourses(Run(s, calls[..i]), a, b, parent, queue)
    requires || (Reporting(calls[i], 10, incoming) && !Ignored(a, incoming) && a' == incoming && b' == b)
             || (Reporting(calls[i], 11, incoming) && !Ignored(b, incoming) && b' == incoming && a' == a)
    ensures var parent' := TwoCourseRollUp(a', b', parent);
            TwoCourses(Run(s, calls[..i + 1]), a', b', parent',
                       if parent'.IsFinalSuccess() && !parent.IsFinalSuccess() then queue + [MergeJob(1, 9)] else queue)
  {
    var before := Run(s, calls[..i]);
    RunPrefix(s, calls, i);
    assert Siblings(before.courses, 1) == {10, 11};
    assert Addresses(before, [calls[i]], 1);
    MergeIffEnteringFinalSuccess(before, calls[i], 1);
    TwoCoursesRollUp(Deliver(before, calls[i]).courses, parent);
  }

  lemma FirstMerge(s: Store, calls: seq<Call>)
    requires TwoCourses(s, Processing, Processing, RequestProcessing, [])
    requires |calls| >= 2 && Reporting(calls[0], 10, EmptyBank) && Reporting(calls[1], 11, Completed)
    ensures TwoCourses(Run(s, calls[..2]), EmptyBank, Completed, ReviewRequired, [MergeJob(1, 9)])
  {
    assert Run(s, calls[..0]) == s;
    TwoCoursesStep(s, calls, 0, Processing, Processing, RequestProcessing, [], EmptyBank, EmptyBank, Processing);
    TwoCoursesStep(s, calls, 1, EmptyBank, Processing, RequestProcessing, [], Completed, EmptyBank, Completed);
  }

  lemma SecondMerge(s: Store, calls: seq<Call>, queue: seq<MergeJob>)
    requires |calls| >= 4 && Reporting(calls[2], 10, Failed) && Reporting(calls[3], 10, Completed)
    requires TwoCourses(Run(s, calls[..2]), EmptyBank, Completed, ReviewRequired, queue)
    ensures TwoCourses(Run(s, calls[..4]), Completed, Completed, RequestCompleted, queue + [MergeJob(1, 9)])
  {
    TwoCoursesStep(s, calls, 2, EmptyBank, Completed, ReviewRequired, queue, Failed, Failed, Completed);
    TwoCoursesStep(s, calls, 3, Failed, Completed, RequestFailed, queue, Completed, Completed, Completed);
  }

  /** The dispatch is documented as happening exactly once; four legal reports can queue two merges. */
  lemma MergeCanRepeat(s: Store, calls: seq<Call>)
    requires TwoCourses(s, Processing, Processing, RequestProcessing, [])
    requires |calls| == 4 && Reporting(calls[0], 10, EmptyBank) && Reporting(calls[1], 11, Completed)
    requires Reporting(calls[2], 10, Failed) && Reporting(calls[3], 10, Completed)
    ensures Run(s, calls).queue == [MergeJob(1, 9), MergeJob(1, 9)]
  {
    FirstMerge(s, calls);
    SecondMerge(s, calls, [MergeJob(1, 9)]);
    assert calls[..4] == calls;
  }
}
