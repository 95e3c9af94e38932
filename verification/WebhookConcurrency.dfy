/**
 Callbacks of one request as overlapping READ COMMITTED transactions: the guard read, which takes no
 lock; the course write, which waits for another writer of that row, and the ledger; the FOR UPDATE lock
 on the parent; the sibling read; the roll-up; the commit.
 */
module WebhookConcurrency {
  import opened Wrappers
  import opened MaterialWebhook
  import opened WebhookRuns

  // A transaction's own uncommitted rows: the course row, and its ledger rows removed and added.
  datatype Writes = Writes(row: CourseRow, removed: set<LedgerRow>, added: set<LedgerRow>)

  datatype Phase =
    | Guarded
    | Wrote(w: Writes)
    | Locked(w: Writes, parent: RequestRow)
    | Read(w: Writes, parent: RequestRow, siblings: map<Id, CourseRow>)
    | RolledUp(w: Writes, parent: RequestRow, siblings: map<Id, CourseRow>)

  // An open transaction that got past its guard.
  datatype Tx = Tx(call: Call, job: Id, incoming: CourseStatus, phase: Phase)

  // `store` holds what is committed, except that `queue` is not transactional: a job is visible at once.
  // Transactions are numbered as they begin. `history` lists the finished callbacks: the ignored ones at
  // their guard read, the others at commit. `orphans` are the jobs whose transaction then did not commit.
  datatype Sys = Sys(store: Store, txs: map<nat, Tx>, lock: Option<nat>, next: nat, history: seq<Call>, orphans: seq<MergeJob>)

  datatype Step =
    | Begin(call: Call)
    | WriteRows(tx: nat)
    | TakeLock(tx: nat)
    | ReadSiblings(tx: nat)
    | DoRollUp(tx: nat)
    | Commit(tx: nat)
    | Abort(tx: nat)

  function Start(s: Store): Sys { Sys(s, map[], None, 0, [], []) }

  ghost predicate PassesGuard(s: Store, call: Call) {
    call.jobId.Some? && call.status != "" && MapStatus(call.status).Success? && call.jobId.value in s.courses
    && !Ignored(s.courses[call.jobId.value].status, MapStatus(call.status).value)
  }

  // Another open transaction has written the course row: its row lock is held until it ends.
  ghost predicate RowFree(sys: Sys, t: nat)
    requires t in sys.txs
  {
    forall u | u in sys.txs && u != t && sys.txs[u].job == sys.txs[t].job :: sys.txs[u].phase.Guarded?
  }

  // A course row's parent exists by its foreign key, so the lock always finds it.
  ghost predicate Enabled(sys: Sys, step: Step, r: Id) {
    match step
    case Begin(call) => call.jobId.Some? && call.jobId.value in sys.store.courses ==> sys.store.courses[call.jobId.value].requestId == r
    case WriteRows(t) => t in sys.txs && sys.txs[t].phase.Guarded? && sys.txs[t].job in sys.store.courses && RowFree(sys, t)
    case TakeLock(t) => t in sys.txs && sys.txs[t].phase.Wrote? && sys.lock.None? && r in sys.store.requests
    case ReadSiblings(t) => t in sys.txs && sys.txs[t].phase.Locked?
    case DoRollUp(t) => t in sys.txs && sys.txs[t].phase.Read?
    case Commit(t) => t in sys.txs && sys.txs[t].phase.RolledUp? && sys.txs[t].job in sys.store.courses && r in sys.store.requests
    case Abort(t) => t in sys.txs
  }

  ghost function WritesOf(s: Store, job: Id, incoming: CourseStatus, call: Call): Writes
    requires job in s.courses
  {
    var row := s.courses[job];
    var ledger := WritesLedger(incoming, call);
    Writes(WriteCourse(row, incoming, call),
           if ledger then RowsOf(s.ledger, row.requestId, row.courseId) else {},
           if ledger then Collapsed(row.requestId, row.courseId, call.usages) else {})
  }

  // The parent as the transaction saw it under its lock, in the shape the roll-up functions take.
  function Seen(r: Id, parent: RequestRow): map<Id, RequestRow> { map[r := parent] }

  ghost function Committed(s: Store, tx: Tx, r: Id): Store
    requires tx.job in s.courses && r in s.requests && tx.phase.RolledUp?
  {
    Store(s.courses[tx.job := tx.phase.w.row],
          if AllFinished(tx.phase.siblings, r) then s.requests[r := tx.phase.parent.(status := RollUp(tx.phase.siblings, r))] else s.requests,
          RolledUpMaterials(tx.phase.siblings, Seen(r, tx.phase.parent), s.materials, r),
          (s.ledger - tx.phase.w.removed) + tx.phase.w.added,
          s.queue,
          s.events + if tx.incoming.IsSuccess()
                     then [GeneratedEvent(tx.phase.parent.cycleId, tx.phase.w.row.courseId, tx.phase.parent.weekNumber)] else [])
  }

  // The merge jobs a transaction has made visible: one once its roll-up has dispatched, else none.
  function JobsOf(tx: Tx, r: Id): seq<MergeJob> {
    if tx.phase.RolledUp? then DispatchedMerge(tx.phase.siblings, Seen(r, tx.phase.parent), r, tx.call.tenantId) else []
  }

  // Transaction t in its next phase.
  function Advance(sys: Sys, t: nat, phase: Phase): map<nat, Tx>
    requires t in sys.txs
  {
    sys.txs[t := sys.txs[t].(phase := phase)]
  }

  ghost function Next(sys: Sys, step: Step, r: Id): Sys
    requires Enabled(sys, step, r)
  {
    match step
    case Begin(call) =>
      if PassesGuard(sys.store, call)
      then sys.(txs := sys.txs[sys.next := Tx(call, call.jobId.value, MapStatus(call.status).value, Guarded)], next := sys.next + 1)
      else sys.(history := sys.history + [call])
    case WriteRows(t) =>
      var tx := sys.txs[t];
      sys.(txs := Advance(sys, t, Wrote(WritesOf(sys.store, tx.job, tx.incoming, tx.call))))
    case TakeLock(t) =>
      sys.(txs := Advance(sys, t, Locked(sys.txs[t].phase.w, sys.store.requests[r])), lock := Some(t))
    case ReadSiblings(t) =>
      var tx := sys.txs[t];
      sys.(txs := Advance(sys, t, Read(tx.phase.w, tx.phase.parent, sys.store.courses[tx.job := tx.phase.w.row])))
    case DoRollUp(t) =>
      var tx := sys.txs[t];
      sys.(txs := Advance(sys, t, RolledUp(tx.phase.w, tx.phase.parent, tx.phase.siblings)),
           store := sys.store.(queue := sys.store.queue + DispatchedMerge(tx.phase.siblings, Seen(r, tx.phase.parent), r, tx.call.tenantId)))
    case Commit(t) =>
      sys.(store := Committed(sys.store, sys.txs[t], r), txs := sys.txs - {t}, lock := None, history := sys.history + [sys.txs[t].call])
    case Abort(t) =>
      sys.(txs := sys.txs - {t}, lock := if sys.lock == Some(t) then None else sys.lock, orphans := sys.orphans + JobsOf(sys.txs[t], r))
  }

  // At most one callback of a course in flight.
  ghost predicate Apart(sys: Sys, step: Step) {
    step.Begin? && step.call.jobId.Some? ==> forall t | t in sys.txs :: sys.txs[t].job != step.call.jobId.value
  }

  // A run; with `apart`, one that never overlaps two callbacks of one course.
  ghost predicate Reaches(sys: Sys, steps: seq<Step>, r: Id, apart: bool, final: Sys)
    decreases |steps|
  {
    if steps == [] then final == sys
    else Enabled(sys, steps[0], r) && (apart ==> Apart(sys, steps[0])) && Reaches(Next(sys, steps[0], r), steps[1..], r, apart, final)
  }

  // ---------------------------------------------------------------- the invariant of one callback per course

  // Two rows of one request never name the same course.
  ghost predicate DistinctCourses(s: Store) {
    forall i, j | i in s.courses && j in s.courses ::
      s.courses[i].requestId == s.courses[j].requestId && s.courses[i].courseId == s.courses[j].courseId ==> i == j
  }

  // An open transaction would get past its guard, and write the same rows, if it did so just now.
  ghost predicate TxCurrent(s: Store, tx: Tx, r: Id) {
    && PassesGuard(s, tx.call) && tx.call.jobId == Some(tx.job) && tx.incoming == MapStatus(tx.call.status).value
    && s.courses[tx.job].requestId == r
    && (!tx.phase.Guarded? ==> tx.phase.w == WritesOf(s, tx.job, tx.incoming, tx.call))
  }

  ghost predicate PhaseCurrent(s: Store, tx: Tx, r: Id) {
    && (tx.phase.Locked? || tx.phase.Read? || tx.phase.RolledUp? ==> r in s.requests && tx.phase.parent == s.requests[r])
    && (tx.phase.Read? || tx.phase.RolledUp? ==> tx.phase.siblings == s.courses[tx.job := tx.phase.w.row])
  }

  // The merge job of the transaction under the lock, visible before its commit.
  ghost function Pending(sys: Sys, r: Id): seq<MergeJob> {
    if sys.lock.Some? && sys.lock.value in sys.txs then JobsOf(sys.txs[sys.lock.value], r) else []
  }

  // The queue is the serial one, the pending job and the orphans; without orphans, in that order.
  ghost predicate QueueOk(queue: seq<MergeJob>, serial: seq<MergeJob>, pending: seq<MergeJob>, orphans: seq<MergeJob>) {
    && multiset(queue) == multiset(serial) + multiset(pending) + multiset(orphans)
    && (orphans == [] ==> queue == serial + pending)
  }

  lemma QueueDispatches(queue: seq<MergeJob>, serial: seq<MergeJob>, jobs: seq<MergeJob>, orphans: seq<MergeJob>)
    requires QueueOk(queue, serial, [], orphans)
    ensures QueueOk(queue + jobs, serial, jobs, orphans)
  {
  }

  lemma QueueCommits(queue: seq<MergeJob>, serial: seq<MergeJob>, jobs: seq<MergeJob>, orphans: seq<MergeJob>)
    requires QueueOk(queue, serial, jobs, orphans)
    ensures QueueOk(queue, serial + jobs, [], orphans)
  {
  }

  lemma QueueLoses(queue: seq<MergeJob>, serial: seq<MergeJob>, jobs: seq<MergeJob>, orphans: seq<MergeJob>)
    requires QueueOk(queue, serial, jobs, orphans)
    ensures QueueOk(queue, serial, [], orphans + jobs)
  {
    if orphans + jobs == [] { assert orphans == [] && jobs == []; }
  }

  // The tables are those of the finished callbacks in order.
  ghost predicate TablesSerial(store: Store, serial: Store) { store == serial.(queue := store.queue) }

  ghost predicate Serial(sys: Sys, init: Store, r: Id) {
    && TablesSerial(sys.store, Run(init, sys.history))
    && QueueOk(sys.store.queue, Run(init, sys.history).queue, Pending(sys, r), sys.orphans)
  }

  ghost predicate LockDiscipline(sys: Sys) {
    && (sys.lock.Some? ==> sys.lock.value in sys.txs)
    && (forall t | t in sys.txs :: t < sys.next)
    && (forall t, u | t in sys.txs && u in sys.txs :: sys.txs[t].job == sys.txs[u].job ==> t == u)
    && forall t | t in sys.txs :: sys.txs[t].phase.Guarded? || sys.txs[t].phase.Wrote? <==> sys.lock != Some(t)
  }

  ghost predicate TxsCurrent(sys: Sys, r: Id) {
    forall t | t in sys.txs :: TxCurrent(sys.store, sys.txs[t], r) && PhaseCurrent(sys.store, sys.txs[t], r)
  }

  ghost predicate Inv(sys: Sys, init: Store, r: Id) {
    DistinctCourses(sys.store) && LockDiscipline(sys) && TxsCurrent(sys, r) && Serial(sys, init, r)
  }

  lemma RunSnoc(s: Store, calls: seq<Call>, call: Call)
    ensures Run(s, calls + [call]) == Deliver(Run(s, calls), call)
  {
    assert (calls + [call])[..|calls|] == calls;
  }

  // The parent seen under the lock decides the roll-up as the whole table does.
  lemma SeenDecides(courses: map<Id, CourseRow>, requests: map<Id, RequestRow>, materials: map<Id, RequestStatus>, r: Id, tenantId: Option<Id>)
    requires r in requests
    ensures DispatchedMerge(courses, Seen(r, requests[r]), r, tenantId) == DispatchedMerge(courses, requests, r, tenantId)
    ensures RolledUpMaterials(courses, Seen(r, requests[r]), materials, r) == RolledUpMaterials(courses, requests, materials, r)
  {
  }

  lemma CommitIsAccept(s: Store, tx: Tx, r: Id, queued: seq<MergeJob>)
    requires TxCurrent(s, tx, r) && PhaseCurrent(s, tx, r) && tx.phase.RolledUp?
    ensures Accept(s.(queue := queued), tx.job, tx.incoming, tx.call) == Committed(s, tx, r).(queue := queued + JobsOf(tx, r))
  {
    SeenDecides(tx.phase.siblings, s.requests, s.materials, r, tx.call.tenantId);
    if WritesLedger(tx.incoming, tx.call) { ReplaceLedgerRows(s.ledger, r, s.courses[tx.job].courseId, tx.call.usages); }
  }

  /** The commit of an up-to-date transaction is the atomic callback on the committed tables, whatever is queued. */
  lemma CommitIsDelivery(s: Store, tx: Tx, r: Id, queued: seq<MergeJob>)
    requires TxCurrent(s, tx, r) && PhaseCurrent(s, tx, r) && tx.phase.RolledUp?
    ensures Deliver(s.(queue := queued), tx.call) == Committed(s, tx, r).(queue := queued + JobsOf(tx, r))
  {
    CommitIsAccept(s, tx, r, queued);
    assert Callback(s.(queue := queued), tx.call) == Success(Accept(s.(queue := queued), tx.job, tx.incoming, tx.call));
  }

  /** A commit leaves every other course's transaction up to date. */
  lemma CommitKeepsOthers(s: Store, tx: Tx, r: Id, other: Tx)
    requires DistinctCourses(s) && tx.job != other.job
    requires TxCurrent(s, tx, r) && PhaseCurrent(s, tx, r) && tx.phase.RolledUp?
    requires TxCurrent(s, other, r)
    ensures TxCurrent(Committed(s, tx, r), other, r)
  {
    var c, d := s.courses[tx.job].courseId, s.courses[other.job].courseId;
    assert c != d;
    var s' := Committed(s, tx, r);
    assert RowsOf(s'.ledger, r, d) == RowsOf(s.ledger, r, d);
  }

  lemma DistinctAfterCommit(s: Store, tx: Tx, r: Id)
    requires DistinctCourses(s) && TxCurrent(s, tx, r) && PhaseCurrent(s, tx, r) && tx.phase.RolledUp?
    ensures DistinctCourses(Committed(s, tx, r))
  {
  }

  lemma CommitDelivers(s: Store, tx: Tx, r: Id, serial: Store)
    requires TablesSerial(s, serial) && TxCurrent(s, tx, r) && PhaseCurrent(s, tx, r) && tx.phase.RolledUp?
    ensures TablesSerial(Committed(s, tx, r), Deliver(serial, tx.call)) && Committed(s, tx, r).queue == s.queue
    ensures Deliver(serial, tx.call).queue == serial.queue + JobsOf(tx, r)
  {
    CommitIsDelivery(s, tx, r, serial.queue);
    assert s.(queue := serial.queue) == serial;
  }

  lemma CommitKeepsSerial(sys: Sys, init: Store, t: nat, r: Id)
    requires LockDiscipline(sys) && TxsCurrent(sys, r) && Serial(sys, init, r) && Enabled(sys, Commit(t), r)
    ensures Serial(Next(sys, Commit(t), r), init, r)
  {
    var tx, serial, sys' := sys.txs[t], Run(init, sys.history), Next(sys, Commit(t), r);
    assert sys.lock == Some(t) && TxCurrent(sys.store, tx, r) && PhaseCurrent(sys.store, tx, r);
    CommitDelivers(sys.store, tx, r, serial);
    RunSnoc(init, sys.history, tx.call);
    QueueCommits(sys.store.queue, serial.queue, JobsOf(tx, r), sys.orphans);
    assert Pending(sys, r) == JobsOf(tx, r) && Pending(sys', r) == [];
  }

  lemma CommitKeepsTxs(sys: Sys, t: nat, r: Id, u: nat)
    requires DistinctCourses(sys.store) && LockDiscipline(sys) && TxsCurrent(sys, r) && Enabled(sys, Commit(t), r)
    requires u in sys.txs && u != t
    ensures TxCurrent(Committed(sys.store, sys.txs[t], r), sys.txs[u], r) && PhaseCurrent(Committed(sys.store, sys.txs[t], r), sys.txs[u], r)
  {
    assert TxCurrent(sys.store, sys.txs[t], r) && PhaseCurrent(sys.store, sys.txs[t], r);
    assert TxCurrent(sys.store, sys.txs[u], r) && sys.lock == Some(t);
    CommitKeepsOthers(sys.store, sys.txs[t], r, sys.txs[u]);
  }

  lemma CommitKeepsLock(sys: Sys, t: nat, r: Id)
    requires LockDiscipline(sys) && Enabled(sys, Commit(t), r)
    ensures LockDiscipline(Next(sys, Commit(t), r))
  {
    assert sys.lock == Some(t);
  }

  lemma CommitKeepsInv(sys: Sys, init: Store, t: nat, r: Id)
    requires Inv(sys, init, r) && Enabled(sys, Commit(t), r)
    ensures Inv(Next(sys, Commit(t), r), init, r)
  {
    CommitKeepsSerial(sys, init, t, r);
    CommitKeepsLock(sys, t, r);
    assert TxCurrent(sys.store, sys.txs[t], r) && PhaseCurrent(sys.store, sys.txs[t], r);
    DistinctAfterCommit(sys.store, sys.txs[t], r);
    forall u | u in sys.txs && u != t
      ensures TxCurrent(Committed(sys.store, sys.txs[t], r), sys.txs[u], r) && PhaseCurrent(Committed(sys.store, sys.txs[t], r), sys.txs[u], r)
    {
      CommitKeepsTxs(sys, t, r, u);
    }
  }

  lemma GuardPassedKeepsLock(sys: Sys, call: Call, r: Id)
    requires LockDiscipline(sys) && Enabled(sys, Begin(call), r) && Apart(sys, Begin(call)) && PassesGuard(sys.store, call)
    ensures LockDiscipline(Next(sys, Begin(call), r)) && Pending(Next(sys, Begin(call), r), r) == Pending(sys, r)
  {
  }

  lemma GuardPassedKeepsInv(sys: Sys, init: Store, call: Call, r: Id)
    requires Inv(sys, init, r) && Enabled(sys, Begin(call), r) && Apart(sys, Begin(call)) && PassesGuard(sys.store, call)
    ensures Inv(Next(sys, Begin(call), r), init, r)
  {
    var sys' := Next(sys, Begin(call), r);
    GuardPassedKeepsLock(sys, call, r);
    forall t | t in sys'.txs ensures TxCurrent(sys'.store, sys'.txs[t], r) && PhaseCurrent(sys'.store, sys'.txs[t], r) {
      if t in sys.txs { assert TxCurrent(sys.store, sys.txs[t], r) && PhaseCurrent(sys.store, sys.txs[t], r); }
    }
  }

  lemma IgnoredKeepsInv(sys: Sys, init: Store, call: Call, r: Id)
    requires Inv(sys, init, r) && Enabled(sys, Begin(call), r) && !PassesGuard(sys.store, call)
    ensures Inv(Next(sys, Begin(call), r), init, r)
  {
    var sys' := Next(sys, Begin(call), r);
    var base := Run(init, sys.history);
    RunSnoc(init, sys.history, call);
    assert base.courses == sys.store.courses;
    assert Deliver(base, call) == base;
    assert Pending(sys', r) == Pending(sys, r);
  }

  /** A step inside a transaction touches no committed row, so every transaction stays up to date. */
  lemma InnerStepKeepsTxs(sys: Sys, step: Step, r: Id, t: nat)
    requires LockDiscipline(sys) && TxsCurrent(sys, r) && Enabled(sys, step, r) && !step.Begin? && !step.Commit?
    requires t in Next(sys, step, r).txs
    ensures TxCurrent(Next(sys, step, r).store, Next(sys, step, r).txs[t], r)
    ensures PhaseCurrent(Next(sys, step, r).store, Next(sys, step, r).txs[t], r)
  {
    assert TxCurrent(sys.store, sys.txs[t], r) && PhaseCurrent(sys.store, sys.txs[t], r);
    if step.DoRollUp? {
      var tx, s' := sys.txs[t], Next(sys, step, r).store;
      assert WritesOf(s', tx.job, tx.incoming, tx.call) == WritesOf(sys.store, tx.job, tx.incoming, tx.call);
    }
  }

  lemma DispatchKeepsSerial(sys: Sys, init: Store, t: nat, r: Id)
    requires LockDiscipline(sys) && Serial(sys, init, r) && Enabled(sys, DoRollUp(t), r)
    ensures Serial(Next(sys, DoRollUp(t), r), init, r)
  {
    var sys' := Next(sys, DoRollUp(t), r);
    assert sys.lock == Some(t) && Pending(sys, r) == [];
    QueueDispatches(sys.store.queue, Run(init, sys.history).queue, Pending(sys', r), sys.orphans);
  }

  lemma AbortKeepsSerial(sys: Sys, init: Store, t: nat, r: Id)
    requires LockDiscipline(sys) && Serial(sys, init, r) && Enabled(sys, Abort(t), r)
    ensures Serial(Next(sys, Abort(t), r), init, r)
  {
    var sys' := Next(sys, Abort(t), r);
    if sys.lock == Some(t) {
      assert Pending(sys, r) == JobsOf(sys.txs[t], r) && Pending(sys', r) == [];
      QueueLoses(sys.store.queue, Run(init, sys.history).queue, Pending(sys, r), sys.orphans);
    } else {
      assert JobsOf(sys.txs[t], r) == [] && Pending(sys', r) == Pending(sys, r) && sys'.orphans == sys.orphans;
    }
  }

  lemma InnerStepKeepsSerial(sys: Sys, init: Store, step: Step, r: Id)
    requires LockDiscipline(sys) && Serial(sys, init, r) && Enabled(sys, step, r) && !step.Begin? && !step.Commit?
    ensures Serial(Next(sys, step, r), init, r)
  {
    if step.DoRollUp? { DispatchKeepsSerial(sys, init, step.tx, r); }
    else if step.Abort? { AbortKeepsSerial(sys, init, step.tx, r); }
    else { assert Pending(Next(sys, step, r), r) == Pending(sys, r); }
  }

  lemma InnerStepKeepsLock(sys: Sys, step: Step, r: Id)
    requires LockDiscipline(sys) && Enabled(sys, step, r) && !step.Begin? && !step.Commit?
    ensures LockDiscipline(Next(sys, step, r)) && Next(sys, step, r).store.courses == sys.store.courses
  {
  }

  lemma InnerStepKeepsInv(sys: Sys, init: Store, step: Step, r: Id)
    requires Inv(sys, init, r) && Enabled(sys, step, r) && !step.Begin? && !step.Commit?
    ensures Inv(Next(sys, step, r), init, r)
  {
    var sys' := Next(sys, step, r);
    forall t | t in sys'.txs ensures TxCurrent(sys'.store, sys'.txs[t], r) && PhaseCurrent(sys'.store, sys'.txs[t], r) {
      InnerStepKeepsTxs(sys, step, r, t);
    }
    InnerStepKeepsLock(sys, step, r);
    InnerStepKeepsSerial(sys, init, step, r);
  }

  // ---------------------------------------------------------------- every interleaving

  lemma {:induction false} InvAlongRun(sys: Sys, init: Store, steps: seq<Step>, r: Id, final: Sys)
    requires Inv(sys, init, r) && Reaches(sys, steps, r, true, final)
    ensures Inv(final, init, r)
    decreases |steps|
  {
    if steps != [] {
      if steps[0].Begin? {
        if PassesGuard(sys.store, steps[0].call) { GuardPassedKeepsInv(sys, init, steps[0].call, r); }
        else { IgnoredKeepsInv(sys, init, steps[0].call, r); }
      }
      else if steps[0].Commit? { CommitKeepsInv(sys, init, steps[0].tx, r); }
      else { InnerStepKeepsInv(sys, init, steps[0], r); }
      InvAlongRun(Next(sys, steps[0], r), init, steps[1..], r, final);
    }
  }

  /**
   Serialisability: whatever the interleaving, once no transaction is open the tables are those of the
   finished callbacks delivered one at a time in commit order; the queue is theirs with one more job for each
   transaction that dispatched a merge and then did not commit.
   */
  lemma CallbacksSerialise(init: Store, steps: seq<Step>, r: Id, final: Sys)
    requires DistinctCourses(init) && Reaches(Start(init), steps, r, true, final)
    requires final.txs == map[]
    ensures TablesSerial(final.store, Run(init, final.history))
    ensures multiset(final.store.queue) == multiset(Run(init, final.history).queue) + multiset(final.orphans)
    ensures final.orphans == [] ==> final.store == Run(init, final.history)
  {
    InvAlongRun(Start(init), init, steps, r, final);
  }

  // How many transactions of a run dispatched a merge and were then aborted.
  ghost function LostDispatches(sys: Sys, steps: seq<Step>, r: Id, final: Sys): nat
    requires Reaches(sys, steps, r, true, final)
    decreases |steps|
  {
    if steps == [] then 0
    else (if steps[0].Abort? && JobsOf(sys.txs[steps[0].tx], r) != [] then 1 else 0) + LostDispatches(Next(sys, steps[0], r), steps[1..], r, final)
  }

  /** One orphan for each such abort, and no other. */
  lemma {:induction false} OrphansAreLostDispatches(sys: Sys, steps: seq<Step>, r: Id, final: Sys)
    requires Reaches(sys, steps, r, true, final)
    ensures |final.orphans| == |sys.orphans| + LostDispatches(sys, steps, r, final)
    decreases |steps|
  {
    if steps != [] { OrphansAreLostDispatches(Next(sys, steps[0], r), steps[1..], r, final); }
  }

  // A report of no failure, for a course of r or for no course, in a tenant's context.
  ghost predicate Harmless(init: Store, call: Call, r: Id) {
    call.tenantId.Some? && call.status != "failed"
    && (call.jobId.Some? && call.jobId.value in init.courses ==> init.courses[call.jobId.value].requestId == r)
  }

  ghost predicate AllHarmless(init: Store, calls: seq<Call>, r: Id) { forall k | 0 <= k < |calls| :: Harmless(init, calls[k], r) }

  ghost predicate OnlyHarmless(init: Store, sys: Sys, r: Id) {
    AllHarmless(init, sys.history, r) && forall t | t in sys.txs :: Harmless(init, sys.txs[t].call, r)
  }

  lemma StepKeepsHarmless(init: Store, sys: Sys, step: Step, r: Id)
    requires Enabled(sys, step, r) && OnlyHarmless(init, sys, r) && (step.Begin? ==> Harmless(init, step.call, r))
    ensures OnlyHarmless(init, Next(sys, step, r), r)
  {
  }

  lemma {:induction false} HistoryHarmless(init: Store, sys: Sys, steps: seq<Step>, r: Id, final: Sys)
    requires Reaches(sys, steps, r, true, final) && OnlyHarmless(init, sys, r)
    requires forall k | 0 <= k < |steps| && steps[k].Begin? :: Harmless(init, steps[k].call, r)
    ensures OnlyHarmless(init, final, r)
    decreases |steps|
  {
    if steps != [] {
      StepKeepsHarmless(init, sys, steps[0], r);
      HistoryHarmless(init, Next(sys, steps[0], r), steps[1..], r, final);
    }
  }

  lemma HarmlessHistory(init: Store, calls: seq<Call>, r: Id)
    requires AllHarmless(init, calls, r)
    ensures Addresses(init, calls, r) && Tenanted(calls) && NoFailure(calls)
  {
    forall k | 0 <= k < |calls|
      ensures calls[k].tenantId.Some? && calls[k].status != "failed"
      ensures calls[k].jobId.Some? && calls[k].jobId.value in init.courses ==> init.courses[calls[k].jobId.value].requestId == r
    {
      assert Harmless(init, calls[k], r);
    }
  }

  /**
   No roll-up is lost: if no worker reports a failure, a quiescent system whose courses are all
   finished carries the roll-up and has queued exactly one merge, besides the jobs of transactions that did
   not commit, under every interleaving.
   */
  lemma ConcurrentExactlyOneMerge(init: Store, steps: seq<Step>, r: Id, final: Sys)
    requires Started(init, r) && DistinctCourses(init) && Reaches(Start(init), steps, r, true, final)
    requires final.txs == map[] && AllFinished(final.store.courses, r)
    requires forall k | 0 <= k < |steps| && steps[k].Begin? :: Harmless(init, steps[k].call, r)
    ensures exists t :: multiset(final.store.queue) == multiset(init.queue + [MergeJob(r, t)]) + multiset(final.orphans)
    ensures final.orphans == [] ==> exists t :: final.store.queue == init.queue + [MergeJob(r, t)]
    ensures r in final.store.requests && final.store.requests[r].status == RollUp(final.store.courses, r)
  {
    CallbacksSerialise(init, steps, r, final);
    HistoryHarmless(init, Start(init), steps, r, final);
    HarmlessHistory(init, final.history, r);
    ExactlyOneMerge(init, final.history, r);
    RunFrame(init, final.history);
    StartedIsOpen(init, r);
    RollUpInvariant(init, final.history, r);
  }

  // ---------------------------------------------------------------- two callbacks of one course at once

  // What every run keeps, overlapping or not: a transaction writes the status it reported.
  ghost predicate TxShape(sys: Sys, t: nat)
    requires t in sys.txs
  {
    var tx := sys.txs[t];
    && t < sys.next && tx.job in sys.store.courses
    && (!tx.phase.Guarded? ==> tx.phase.w.row.status == tx.incoming)
  }

  ghost predicate Consistent(sys: Sys) { forall t | t in sys.txs :: TxShape(sys, t) }

  lemma StepKeepsConsistent(sys: Sys, step: Step, r: Id)
    requires Consistent(sys) && Enabled(sys, step, r)
    ensures Consistent(Next(sys, step, r)) && sys.next <= Next(sys, step, r).next
    ensures Next(sys, step, r).store.courses.Keys == sys.store.courses.Keys
  {
    var sys' := Next(sys, step, r);
    forall t | t in sys'.txs ensures TxShape(sys', t) {
      if t in sys.txs { assert TxShape(sys, t); }
    }
  }

  lemma {:induction false} ConsistentAlongRun(sys: Sys, steps: seq<Step>, r: Id, apart: bool, final: Sys)
    requires Consistent(sys) && Reaches(sys, steps, r, apart, final)
    ensures Consistent(final)
    decreases |steps|
  {
    if steps != [] {
      StepKeepsConsistent(sys, steps[0], r);
      ConsistentAlongRun(Next(sys, steps[0], r), steps[1..], r, apart, final);
    }
  }

  // At some moment of the run the course's committed status is no longer `st`.
  ghost predicate EverUndone(sys: Sys, steps: seq<Step>, r: Id, job: Id, st: CourseStatus)
    decreases |steps|
  {
    job in sys.store.courses
    && (sys.store.courses[job].status != st
        || (steps != [] && Enabled(sys, steps[0], r) && EverUndone(Next(sys, steps[0], r), steps[1..], r, job, st)))
  }

  // One of the transactions open at the start reports another status for the course, and commits in the run.
  ghost predicate OtherCommits(txs: map<nat, Tx>, steps: seq<Step>, job: Id, st: CourseStatus) {
    exists k | 0 <= k < |steps| :: IsOther(txs, steps[k], job, st)
  }

  ghost predicate IsOther(txs: map<nat, Tx>, step: Step, job: Id, st: CourseStatus) {
    step.Commit? && step.tx in txs && txs[step.tx].job == job && txs[step.tx].incoming != st
  }

  // An ended transaction never commits again: numbers are not reused.
  lemma {:induction false} EndedStaysEnded(sys: Sys, steps: seq<Step>, r: Id, apart: bool, final: Sys, t: nat)
    requires Reaches(sys, steps, r, apart, final) && t < sys.next && t !in sys.txs
    ensures forall k | 0 <= k < |steps| :: steps[k] != Commit(t)
    decreases |steps|
  {
    if steps != [] {
      EndedStaysEnded(Next(sys, steps[0], r), steps[1..], r, apart, final, t);
      forall k | 0 <= k < |steps| ensures steps[k] != Commit(t) {
        if k > 0 { assert steps[k] == steps[1..][k - 1]; }
      }
    }
  }

  // While a success stands, the callbacks of its course that can still commit are those already past their guard.
  lemma OtherStillOpen(sys: Sys, steps: seq<Step>, r: Id, apart: bool, final: Sys, job: Id, st: CourseStatus)
    requires Consistent(sys) && steps != [] && Reaches(sys, steps, r, apart, final) && !IsOther(sys.txs, steps[0], job, st)
    requires OtherCommits(sys.txs, steps, job, st)
    ensures OtherCommits(Next(sys, steps[0], r).txs, steps[1..], job, st)
  {
    var sys' := Next(sys, steps[0], r);
    var k :| 0 <= k < |steps| && IsOther(sys.txs, steps[k], job, st);
    assert steps[k] == steps[1..][k - 1] && TxShape(sys, steps[k].tx);
    if steps[k].tx !in sys'.txs { EndedStaysEnded(sys', steps[1..], r, apart, final, steps[k].tx); }
    assert IsOther(sys'.txs, steps[1..][k - 1], job, st);
  }

  lemma OtherWasOpen(sys: Sys, steps: seq<Step>, r: Id, job: Id, st: CourseStatus)
    requires st.IsSuccess() && job in sys.store.courses && sys.store.courses[job].status == st
    requires steps != [] && Enabled(sys, steps[0], r) && OtherCommits(Next(sys, steps[0], r).txs, steps[1..], job, st)
    ensures OtherCommits(sys.txs, steps, job, st)
  {
    var sys' := Next(sys, steps[0], r);
    var k :| 0 <= k < |steps[1..]| && IsOther(sys'.txs, steps[1..][k], job, st);
    assert steps[k + 1] == steps[1..][k];
    assert IsOther(sys.txs, steps[k + 1], job, st);
  }

  lemma CommitSetsStatus(sys: Sys, step: Step, r: Id, job: Id, st: CourseStatus)
    requires Consistent(sys) && Enabled(sys, step, r) && job in sys.store.courses && sys.store.courses[job].status == st
    ensures job in Next(sys, step, r).store.courses
    ensures Next(sys, step, r).store.courses[job].status != st <==> IsOther(sys.txs, step, job, st)
  {
    if step.Commit? { assert TxShape(sys, step.tx); }
  }

  /**
   Exactly when a success is undone: in every run, overlapping or not, a committed success of a course is
   replaced if and only if a callback of that course with another status, already past its guard when the
   success stood, commits afterwards.
   */
  lemma {:induction false} SuccessUndoneIff(sys: Sys, steps: seq<Step>, r: Id, apart: bool, final: Sys, job: Id, st: CourseStatus)
    requires Consistent(sys) && st.IsSuccess() && job in sys.store.courses && sys.store.courses[job].status == st
    requires Reaches(sys, steps, r, apart, final)
    ensures EverUndone(sys, steps, r, job, st) <==> OtherCommits(sys.txs, steps, job, st)
    decreases |steps|
  {
    if steps != [] {
      var sys' := Next(sys, steps[0], r);
      StepKeepsConsistent(sys, steps[0], r);
      CommitSetsStatus(sys, steps[0], r, job, st);
      if !IsOther(sys.txs, steps[0], job, st) {
        if OtherCommits(sys.txs, steps, job, st) { OtherStillOpen(sys, steps, r, apart, final, job, st); }
        if OtherCommits(sys'.txs, steps[1..], job, st) { OtherWasOpen(sys, steps, r, job, st); }
        SuccessUndoneIff(sys', steps[1..], r, apart, final, job, st);
      }
    }
  }

  /** So with one callback of a course in flight at a time, success is authoritative: it is never undone. */
  lemma SuccessStandsWhenApart(init: Store, before: seq<Step>, r: Id, sys: Sys, steps: seq<Step>, final: Sys, job: Id, st: CourseStatus)
    requires DistinctCourses(init) && Reaches(Start(init), before, r, true, sys) && Reaches(sys, steps, r, true, final)
    requires st.IsSuccess() && job in sys.store.courses && sys.store.courses[job].status == st
    ensures !EverUndone(sys, steps, r, job, st)
  {
    InvAlongRun(Start(init), init, before, r, sys);
    ConsistentAlongRun(Start(init), before, r, true, sys);
    forall t | t in sys.txs ensures sys.txs[t].job != job { assert TxCurrent(sys.store, sys.txs[t], r); }
    SuccessUndoneIff(sys, steps, r, true, final, job, st);
  }

  lemma ReachesNext(sys: Sys, step: Step, r: Id, rest: seq<Step>, final: Sys)
    requires Enabled(sys, step, r) && Reaches(Next(sys, step, r), rest, r, false, final)
    ensures Reaches(sys, [step] + rest, r, false, final)
  {
    assert ([step] + rest)[1..] == rest;
  }

  lemma {:induction false} ReachesThen(sys: Sys, steps: seq<Step>, r: Id, mid: Sys, more: seq<Step>, final: Sys)
    requires Reaches(sys, steps, r, false, mid) && Reaches(mid, more, r, false, final)
    ensures Reaches(sys, steps + more, r, false, final)
    decreases |steps|
  {
    if steps == [] {
      assert steps + more == more;
    } else {
      ReachesThen(Next(sys, steps[0], r), steps[1..], r, mid, more, final);
      assert (steps + more)[1..] == steps[1..] + more;
    }
  }

  // The lock, the sibling read, the roll-up and the commit of a transaction that has written its rows.
  lemma LockToCommit(sys: Sys, t: nat, r: Id) returns (steps: seq<Step>, final: Sys)
    requires t in sys.txs && sys.txs[t].phase.Wrote? && sys.lock.None? && r in sys.store.requests && sys.txs[t].job in sys.store.courses
    ensures Reaches(sys, steps, r, false, final)
    ensures final.txs == sys.txs - {t} && final.lock.None? && r in final.store.requests
    ensures final.store.courses == sys.store.courses[sys.txs[t].job := sys.txs[t].phase.w.row]
  {
    var s1 := Next(sys, TakeLock(t), r);
    var s2 := Next(s1, ReadSiblings(t), r);
    var s3 := Next(s2, DoRollUp(t), r);
    final := Next(s3, Commit(t), r);
    assert Reaches(final, [], r, false, final);
    ReachesNext(s3, Commit(t), r, [], final);
    ReachesNext(s2, DoRollUp(t), r, [Commit(t)], final);
    ReachesNext(s1, ReadSiblings(t), r, [DoRollUp(t), Commit(t)], final);
    ReachesNext(sys, TakeLock(t), r, [ReadSiblings(t), DoRollUp(t), Commit(t)], final);
    steps := [TakeLock(t)] + [ReadSiblings(t), DoRollUp(t), Commit(t)];
  }

  // A guarded transaction whose row is free can run to its commit.
  lemma GuardToCommit(sys: Sys, t: nat, r: Id) returns (steps: seq<Step>, final: Sys)
    requires t in sys.txs && sys.txs[t].phase.Guarded? && RowFree(sys, t) && sys.lock.None? && r in sys.store.requests && sys.txs[t].job in sys.store.courses
    ensures Reaches(sys, steps, r, false, final)
    ensures final.txs == sys.txs - {t} && final.lock.None? && r in final.store.requests
    ensures final.store.courses.Keys == sys.store.courses.Keys && final.store.courses[sys.txs[t].job].status == sys.txs[t].incoming
  {
    var wrote := Next(sys, WriteRows(t), r);
    steps, final := LockToCommit(wrote, t, r);
    ReachesNext(sys, WriteRows(t), r, steps, final);
    steps := [WriteRows(t)] + steps;
    assert wrote.txs - {t} == sys.txs - {t};
  }

  /**
   The overlap is reachable: of two callbacks of one course that both read the row before either wrote it,
   the success commits and the late failure then replaces it, which no serial order of the two does.
   */
  lemma OverlapOnOneCourseUndoesSuccess(s: Store, job: Id, r: Id, done: Call, late: Call)
      returns (before: seq<Step>, mid: Sys, after: seq<Step>, final: Sys)
    requires PassesGuard(s, done) && PassesGuard(s, late) && done.jobId == late.jobId == Some(job)
    requires s.courses[job].requestId == r && r in s.requests
    requires MapStatus(done.status) == Success(Completed) && MapStatus(late.status) == Success(Failed)
    ensures Reaches(Start(s), before, r, false, mid) && job in mid.store.courses && mid.store.courses[job].status == Completed
    ensures Reaches(mid, after, r, false, final) && job in final.store.courses && final.store.courses[job].status == Failed
    ensures job in Deliver(Deliver(s, done), late).courses && Deliver(Deliver(s, done), late).courses[job].status == Completed
    ensures job in Deliver(Deliver(s, late), done).courses && Deliver(Deliver(s, late), done).courses[job].status == Completed
  {
    var s1 := Next(Start(s), Begin(done), r);
    var s2 := Next(s1, Begin(late), r);
    assert s2.txs == map[0 := Tx(done, job, Completed, Guarded), 1 := Tx(late, job, Failed, Guarded)];
    assert Reaches(s2, [], r, false, s2);
    ReachesNext(s1, Begin(late), r, [], s2);
    ReachesNext(Start(s), Begin(done), r, [Begin(late)], s2);
    before, mid := GuardToCommit(s2, 0, r);
    ReachesThen(Start(s), [Begin(done)] + [Begin(late)], r, s2, before, mid);
    before := [Begin(done)] + [Begin(late)] + before;
    assert mid.txs == map[1 := Tx(late, job, Failed, Guarded)];
    after, final := GuardToCommit(mid, 1, r);
  }
}
