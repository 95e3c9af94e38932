/**
 Tenant schema migrations: one runner as it executes, the fan-out over tenants, and any number of
 runners crashing, failing and racing on one schema.
 */
module TenantMigrations {
  import opened Wrappers

  // A schema is the list of migrations whose DDL took effect, in the order they did, and its ledger.
  datatype Schema = Schema(effects: seq<Id>, ledger: seq<Id>)

  // The shipped list: ordered, without repetition.
  ghost predicate ProperList(list: seq<Id>) { forall i, j | 0 <= i < j < |list| :: list[i] != list[j] }

  /** Exactly once, in order: the DDL that took effect is what the ledger says, a prefix of the list. */
  ghost predicate InStep(s: Schema, list: seq<Id>) { s.effects == s.ledger && s.ledger <= list }

  lemma PrefixMember(s: Schema, list: seq<Id>, i: nat)
    requires InStep(s, list) && ProperList(list) && i < |list|
    ensures list[i] in s.ledger <==> i < |s.ledger|
  {
    if i < |s.ledger| { assert s.ledger[i] == list[i]; }
  }

  // ---------------------------------------------------------------- one runner, the fan-out

  class TenantSchema {
    var schema: Schema

    constructor ()
      ensures schema == Schema([], [])
    {
      schema := Schema([], []);
    }

    /** DDL and ledger row in one transaction; `fails` is any error either statement raises. */
    method ApplyOne(id: Id, fails: bool) returns (ok: bool)
      modifies this
      ensures ok <==> !fails && id !in old(schema.ledger)
      ensures schema == if ok then Schema(old(schema).effects + [id], old(schema).ledger + [id]) else old(schema)
    {
      var before := schema;
      schema := schema.(effects := schema.effects + [id]);
      if fails || id in schema.ledger {
        schema := before;
        return false;
      }
      schema := schema.(ledger := schema.ledger + [id]);
      return true;
    }

    /**
     The runner, with nobody racing it: it applies what is missing, in order, and stops at the first
     step that fails. A rerun from wherever an earlier one stopped ends where an uninterrupted one does.
     */
    method RunMigrations(list: seq<Id>, failing: set<Id>) returns (ok: bool)
      requires ProperList(list) && InStep(schema, list)
      modifies this
      ensures InStep(schema, list) && old(schema).ledger <= schema.ledger
      ensures ok <==> schema.ledger == list
      ensures ok <==> forall i | |old(schema).ledger| <= i < |list| :: list[i] !in failing
      ensures !ok ==> |schema.ledger| < |list| && list[|schema.ledger|] in failing
    {
      var applied := set id | id in schema.ledger;
      ghost var start := |schema.ledger|;
      for k := 0 to |list|
        invariant InStep(schema, list) && old(schema).ledger <= schema.ledger
        invariant |schema.ledger| == if k < start then start else k
        invariant forall i | start <= i < k :: list[i] !in failing
      {
        PrefixMember(old(schema), list, k);
        PrefixMember(schema, list, k);
        if list[k] !in applied {
          var done := ApplyOne(list[k], list[k] in failing);
          if !done { return false; }
          assert schema.ledger == list[..k + 1];
        }
      }
      return true;
    }
  }

  datatype Summary = Summary(total: nat, migrated: nat, skipped: nat, failed: nat, failures: seq<Id>)

  datatype Outcome = Migrated | Missing | Broken

  function Count(outcomes: seq<Outcome>, o: Outcome): nat {
    if outcomes == [] then 0 else (if outcomes[|outcomes| - 1] == o then 1 else 0) + Count(outcomes[..|outcomes| - 1], o)
  }

  lemma CountAll(outcomes: seq<Outcome>)
    ensures Count(outcomes, Migrated) + Count(outcomes, Missing) + Count(outcomes, Broken) == |outcomes|
  {
  }

  /** One broken tenant never stops the others: every tenant is visited and counted exactly once. */
  method RunForAllTenants(outcomeOf: map<Id, Outcome>, companies: seq<Id>) returns (summary: Summary, ghost visited: seq<Outcome>)
    requires forall c | c in companies :: c in outcomeOf
    ensures |visited| == |companies| && forall k | 0 <= k < |companies| :: visited[k] == outcomeOf[companies[k]]
    ensures summary.migrated == Count(visited, Migrated) && summary.skipped == Count(visited, Missing) && summary.failed == Count(visited, Broken)
    ensures summary.total == |companies| == summary.migrated + summary.skipped + summary.failed
    ensures |summary.failures| == summary.failed && forall c :: c in summary.failures <==> c in companies && outcomeOf[c].Broken?
  {
    visited := [];
    summary := Summary(|companies|, 0, 0, 0, []);
    for k := 0 to |companies|
      invariant |visited| == k && forall i | 0 <= i < k :: visited[i] == outcomeOf[companies[i]]
      invariant summary.total == |companies|
      invariant summary.migrated == Count(visited, Migrated) && summary.skipped == Count(visited, Missing) && summary.failed == Count(visited, Broken)
      invariant |summary.failures| == summary.failed && forall c :: c in summary.failures <==> c in companies[..k] && outcomeOf[c].Broken?
    {
      var outcome := outcomeOf[companies[k]];
      assert (visited + [outcome])[..k] == visited;
      assert companies[..k + 1] == companies[..k] + [companies[k]];
      visited := visited + [outcome];
      match outcome {
        case Migrated => summary := summary.(migrated := summary.migrated + 1);
        case Missing => summary := summary.(skipped := summary.skipped + 1);
        case Broken => summary := summary.(failed := summary.failed + 1, failures := summary.failures + [companies[k]]);
      }
    }
    assert companies[..|companies|] == companies;
    CountAll(visited);
  }

  // ---------------------------------------------------------------- racing runners

  datatype Runner = Scanning(applied: set<Id>, i: nat) | InTx(applied: set<Id>, i: nat)

  datatype System = System(schema: Schema, runners: map<Id, Runner>)

  datatype Step =
    | Start(r: Id)      // reads the ledger
    | Skip(r: Id)       // the next migration is in its snapshot
    | Begin(r: Id)
    | Commit(r: Id)     // DDL and ledger row take effect together
    | Conflict(r: Id)   // the ledger's primary key refuses the row: rolled back, the runner stops
    | Crash(r: Id)      // a failing statement, a lost connection or a dead process, at any point
    | Finish(r: Id)

  ghost predicate Enabled(s: System, list: seq<Id>, step: Step) {
    match step
    case Start(r) => r !in s.runners
    case Skip(r) => r in s.runners && s.runners[r].Scanning? && s.runners[r].i < |list| && list[s.runners[r].i] in s.runners[r].applied
    case Begin(r) => r in s.runners && s.runners[r].Scanning? && s.runners[r].i < |list| && list[s.runners[r].i] !in s.runners[r].applied
    case Commit(r) => r in s.runners && s.runners[r].InTx? && s.runners[r].i < |list| && list[s.runners[r].i] !in s.schema.ledger
    case Conflict(r) => r in s.runners && s.runners[r].InTx? && s.runners[r].i < |list| && list[s.runners[r].i] in s.schema.ledger
    case Crash(r) => r in s.runners
    case Finish(r) => r in s.runners && s.runners[r].Scanning? && s.runners[r].i == |list|
  }

  ghost function Next(s: System, list: seq<Id>, step: Step): System
    requires Enabled(s, list, step)
  {
    match step
    case Start(r) => s.(runners := s.runners[r := Scanning(set id | id in s.schema.ledger, 0)])
    case Skip(r) => s.(runners := s.runners[r := s.runners[r].(i := s.runners[r].i + 1)])
    case Begin(r) => s.(runners := s.runners[r := InTx(s.runners[r].applied, s.runners[r].i)])
    case Commit(r) =>
      var id := list[s.runners[r].i];
      System(Schema(s.schema.effects + [id], s.schema.ledger + [id]), s.runners[r := Scanning(s.runners[r].applied, s.runners[r].i + 1)])
    case Conflict(r) => s.(runners := s.runners - {r})
    case Crash(r) => s.(runners := s.runners - {r})
    case Finish(r) => s.(runners := s.runners - {r})
  }

  /** However a runner ends, it leaves the schema and every other runner as they are, and may be started again. */
  lemma EndsLeaveSchema(s: System, list: seq<Id>, step: Step)
    requires Enabled(s, list, step) && (step.Conflict? || step.Crash? || step.Finish?)
    ensures Next(s, list, step).schema == s.schema && Enabled(Next(s, list, step), list, Start(step.r))
    ensures forall r | r in s.runners && r != step.r :: r in Next(s, list, step).runners && Next(s, list, step).runners[r] == s.runners[r]
  {
  }

  // A runner has seen to everything before its position.
  ghost predicate RunnerOk(s: Schema, list: seq<Id>, r: Runner) {
    r.i <= |list| && r.i <= |s.ledger| && forall id | id in r.applied :: id in s.ledger
  }

  ghost predicate Inv(s: System, list: seq<Id>) {
    InStep(s.schema, list) && forall r | r in s.runners :: RunnerOk(s.schema, list, s.runners[r])
  }

  lemma StepKeepsInv(s: System, list: seq<Id>, step: Step)
    requires ProperList(list) && Inv(s, list) && Enabled(s, list, step)
    ensures Inv(Next(s, list, step), list)
  {
    var s' := Next(s, list, step);
    if step.Commit? {
      var i := s.runners[step.r].i;
      PrefixMember(s.schema, list, i);
      assert s'.schema.ledger == list[..i + 1];
    }
    if step.Skip? { PrefixMember(s.schema, list, s.runners[step.r].i); }
    forall r | r in s'.runners ensures RunnerOk(s'.schema, list, s'.runners[r]) {
      if r in s.runners { assert RunnerOk(s.schema, list, s.runners[r]); }
    }
  }

  ghost predicate Reaches(s: System, list: seq<Id>, steps: seq<Step>, final: System)
    decreases |steps|
  {
    if steps == [] then final == s else Enabled(s, list, steps[0]) && Reaches(Next(s, list, steps[0]), list, steps[1..], final)
  }

  /**
   Exactly once under races: with or without the advisory lock, at every moment of every run the
   ledger is a prefix of the list and equals the migrations whose DDL took effect.
   */
  lemma {:induction false} ExactlyOnceInOrder(s: System, list: seq<Id>, steps: seq<Step>, final: System)
    requires ProperList(list) && Inv(s, list) && Reaches(s, list, steps, final)
    ensures Inv(final, list) && s.schema.ledger <= final.schema.ledger
    decreases |steps|
  {
    if steps != [] {
      StepKeepsInv(s, list, steps[0]);
      ExactlyOnceInOrder(Next(s, list, steps[0]), list, steps[1..], final);
    }
  }

  /** A runner that gets to the end leaves the complete schema, whoever else was running. */
  lemma FinishedMeansComplete(s: System, list: seq<Id>, steps: seq<Step>, final: System, r: Id)
    requires ProperList(list) && Inv(s, list) && Reaches(s, list, steps, final) && Enabled(final, list, Finish(r))
    ensures final.schema == Schema(list, list)
  {
    ExactlyOnceInOrder(s, list, steps, final);
    assert RunnerOk(final.schema, list, final.runners[r]);
  }

  // After the list has grown at its end, an up-to-date or partial schema is a valid start for the new list.
  lemma AppendedListStillInStep(s: Schema, list: seq<Id>, more: seq<Id>)
    requires InStep(s, list)
    ensures InStep(s, list + more)
  {
  }

  /**
   Convergence after the list has grown at its end: from a schema anywhere in the old list, with any
   runners and crashes, a runner that gets to the end leaves the schema of a tenant provisioned today.
   */
  lemma UpgradeCompletes(s: Schema, list: seq<Id>, more: seq<Id>, steps: seq<Step>, final: System, r: Id)
    requires InStep(s, list) && ProperList(list + more)
    requires Reaches(System(s, map[]), list + more, steps, final) && Enabled(final, list + more, Finish(r))
    ensures final.schema == Schema(list + more, list + more)
  {
    AppendedListStillInStep(s, list, more);
    FinishedMeansComplete(System(s, map[]), list + more, steps, final, r);
  }

  // ---------------------------------------------------------------- what the lock adds

  // Under the schema lock a runner starts only when no other is running.
  ghost predicate Locked(s: System, step: Step) { step.Start? ==> s.runners == map[] }

  ghost predicate Alone(s: System, list: seq<Id>) {
    && (forall a, b | a in s.runners && b in s.runners :: a == b)
    && (forall r | r in s.runners ::
          && (forall k | 0 <= k < |list| :: list[k] in s.schema.ledger <==> list[k] in s.runners[r].applied || k < s.runners[r].i)
          && (s.runners[r].InTx? ==> s.runners[r].i < |list| && list[s.runners[r].i] !in s.runners[r].applied))
  }

  lemma StepKeepsAlone(s: System, list: seq<Id>, step: Step)
    requires ProperList(list) && Inv(s, list) && Alone(s, list) && Enabled(s, list, step) && Locked(s, step)
    ensures Alone(Next(s, list, step), list)
  {
  }

  ghost predicate ReachesLocked(s: System, list: seq<Id>, steps: seq<Step>, final: System)
    decreases |steps|
  {
    if steps == [] then final == s
    else Enabled(s, list, steps[0]) && Locked(s, steps[0]) && ReachesLocked(Next(s, list, steps[0]), list, steps[1..], final)
  }

  /** Under the lock no runner ever loses a race: the primary key never refuses a row. */
  lemma {:induction false} LockPreventsConflicts(s: System, list: seq<Id>, steps: seq<Step>, final: System, r: Id)
    requires ProperList(list) && Inv(s, list) && Alone(s, list) && ReachesLocked(s, list, steps, final)
    ensures !Enabled(final, list, Conflict(r))
    decreases |steps|
  {
    if steps != [] {
      StepKeepsInv(s, list, steps[0]);
      StepKeepsAlone(s, list, steps[0]);
      LockPreventsConflicts(Next(s, list, steps[0]), list, steps[1..], final, r);
    }
  }

  lemma RunSnoc(s: System, list: seq<Id>, steps: seq<Step>, mid: System, step: Step)
    requires Reaches(s, list, steps, mid) && Enabled(mid, list, step)
    ensures Reaches(s, list, steps + [step], Next(mid, list, step))
    decreases |steps|
  {
    if steps == [] {
      assert (steps + [step])[1..] == [];
    } else {
      RunSnoc(Next(s, list, steps[0]), list, steps[1..], mid, step);
      assert (steps + [step])[1..] == steps[1..] + [step];
    }
  }

  // Two runners that read the empty ledger, both about to apply the first migration.
  lemma TwoRunnersBegin(list: seq<Id>) returns (steps: seq<Step>, s: System)
    requires list != []
    ensures Reaches(System(Schema([], []), map[]), list, steps, s)
    ensures s == System(Schema([], []), map[1 := InTx({}, 0), 2 := InTx({}, 0)])
  {
    var s0 := System(Schema([], []), map[]);
    var s1 := Next(s0, list, Start(1));
    var s2 := Next(s1, list, Start(2));
    var s3 := Next(s2, list, Begin(1));
    s := Next(s3, list, Begin(2));
    assert s1.runners[1].applied == {} && s2.runners[2].applied == {};
    assert s2.runners == map[1 := Scanning({}, 0), 2 := Scanning({}, 0)];
    assert s.runners == map[1 := InTx({}, 0), 2 := InTx({}, 0)];
    assert Reaches(s0, list, [], s0);
    RunSnoc(s0, list, [], s0, Start(1));
    RunSnoc(s0, list, [] + [Start(1)], s1, Start(2));
    RunSnoc(s0, list, [] + [Start(1)] + [Start(2)], s2, Begin(1));
    RunSnoc(s0, list, [] + [Start(1)] + [Start(2)] + [Begin(1)], s3, Begin(2));
    steps := [] + [Start(1)] + [Start(2)] + [Begin(1)] + [Begin(2)];
  }

  /** Without it two runners that read the same ledger collide: in a run from the empty schema the second is refused and stops. */
  lemma UnlockedRunnersCollide(list: seq<Id>) returns (steps: seq<Step>, s: System)
    requires list != []
    ensures Reaches(System(Schema([], []), map[]), list, steps, s)
    ensures s.schema.ledger == [list[0]] && Enabled(s, list, Conflict(2))
  {
    steps, s := TwoRunnersBegin(list);
    RunSnoc(System(Schema([], []), map[]), list, steps, s, Commit(1));
    steps, s := steps + [Commit(1)], Next(s, list, Commit(1));
  }
}
