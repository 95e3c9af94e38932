/**
 Academic cycles and their weeks: creation, the regrow an update triggers, and visibility toggles.
 Dates are day numbers.
 */
module CycleWeeks {
  import opened Wrappers

  datatype Cycle = Cycle(start: int, end: int, daysPerWeek: int, totalWeeks: int, active: bool)

  datatype Week = Week(cycle: Id, number: int, start: int, end: int, active: bool, deleted: bool)

  datatype Change = Change(start: Option<int>, daysPerWeek: Option<int>, totalWeeks: Option<int>)

  datatype Error = NotFound | HasSyllabus

  function OrElse<T>(o: Option<T>, d: T): T { if o.Some? then o.value else d }

  // What the request body is validated for before it gets here.
  predicate ProperShape(daysPerWeek: int, totalWeeks: int) { 1 <= daysPerWeek <= 7 && 1 <= totalWeeks <= 52 }

  predicate ProperChange(c: Change) {
    ProperShape(OrElse(c.daysPerWeek, 1), OrElse(c.totalWeeks, 1))
  }

  function Revised(c: Cycle, change: Change): Cycle {
    c.(start := OrElse(change.start, c.start), daysPerWeek := OrElse(change.daysPerWeek, c.daysPerWeek),
       totalWeeks := OrElse(change.totalWeeks, c.totalWeeks))
  }

  predicate NeedsRegrow(c: Cycle, change: Change) { Revised(c, change) != c }

  // ---------------------------------------------------------------- the dates of a week

  function WeekStart(c: Cycle, number: int): int { c.start + (number - 1) * 7 }

  function WeekEnd(c: Cycle, number: int): int { WeekStart(c, number) + (c.daysPerWeek - 1) }

  ghost predicate Live(weeks: map<Id, Week>, id: Id, cycle: Id) { id in weeks && weeks[id].cycle == cycle && !weeks[id].deleted }

  ghost predicate HasWeek(weeks: map<Id, Week>, cycle: Id, number: int) {
    exists id :: Live(weeks, id, cycle) && weeks[id].number == number
  }

  ghost predicate NumbersOnce(weeks: map<Id, Week>, cycle: Id) {
    forall a, b | Live(weeks, a, cycle) && Live(weeks, b, cycle) && weeks[a].number == weeks[b].number :: a == b
  }

  ghost predicate WeekFits(w: Week, c: Cycle) {
    1 <= w.number <= c.totalWeeks && w.start == WeekStart(c, w.number) && w.end == WeekEnd(c, w.number)
  }

  /** The live weeks of a cycle are numbered 1 to totalWeeks, once each, on the dates its settings give. */
  ghost predicate WeeksMatch(weeks: map<Id, Week>, cycle: Id, c: Cycle) {
    && ProperShape(c.daysPerWeek, c.totalWeeks)
    && c.end == WeekEnd(c, c.totalWeeks)
    && (forall id | Live(weeks, id, cycle) :: WeekFits(weeks[id], c))
    && NumbersOnce(weeks, cycle)
    && forall n | 1 <= n <= c.totalWeeks :: HasWeek(weeks, cycle, n)
  }

  ghost predicate Inv(cycles: map<Id, Cycle>, weeks: map<Id, Week>) {
    && (forall id | id in weeks :: weeks[id].cycle in cycles)
    && forall c | c in cycles :: WeeksMatch(weeks, c, cycles[c])
  }

  /** Weeks never overlap and come in the order of their numbers, seven days apart, from the first day of the cycle to its last. */
  lemma WeeksAreOrdered(weeks: map<Id, Week>, cycle: Id, c: Cycle, a: Id, b: Id)
    requires WeeksMatch(weeks, cycle, c) && Live(weeks, a, cycle) && Live(weeks, b, cycle) && weeks[a].number < weeks[b].number
    ensures c.start <= weeks[a].start <= weeks[a].end < weeks[b].start <= weeks[b].end <= c.end
    ensures weeks[b].start - weeks[a].start == 7 * (weeks[b].number - weeks[a].number)
    ensures weeks[a].end - weeks[a].start + 1 == c.daysPerWeek && (weeks[a].number == 1 ==> weeks[a].start == c.start)
    ensures weeks[b].number == c.totalWeeks ==> weeks[b].end == c.end
  {
    assert WeekFits(weeks[a], c) && WeekFits(weeks[b], c);
  }

  // ---------------------------------------------------------------- what a regrow may do

  // A row of the cycle after it: its number survives and keeps id and visibility, or it is dropped.
  ghost predicate RowRegrown(before: Week, after: Week, cycle: Id, c: Cycle) {
    if before.cycle != cycle || before.deleted then after == before
    else if before.number <= c.totalWeeks then after == before.(start := WeekStart(c, before.number), end := WeekEnd(c, before.number))
    else after == before.(deleted := true)
  }

  // The week a number gets when the cycle had none of it.
  ghost predicate AddedWeek(weeks: map<Id, Week>, id: Id, cycle: Id, c: Cycle, number: int) {
    id in weeks && weeks[id] == Week(cycle, number, WeekStart(c, number), WeekEnd(c, number), true, false)
  }

  ghost predicate Regrown(before: map<Id, Week>, after: map<Id, Week>, cycle: Id, from: int, c: Cycle, ids: seq<Id>) {
    && 0 <= from && c.totalWeeks <= |ids|
    && (forall id | id in before :: id in after && RowRegrown(before[id], after[id], cycle, c))
    && (forall i | from <= i < c.totalWeeks :: AddedWeek(after, ids[i], cycle, c, i + 1))
    && (forall id | id in after && id !in before :: exists i | from <= i < c.totalWeeks :: id == ids[i])
  }

  // Identifiers as uuid gives them: new, and never the same twice.
  ghost predicate NewIds(weeks: map<Id, Week>, ids: seq<Id>, count: int) {
    && 0 <= count <= |ids|
    && (forall i, j | 0 <= i < j < |ids| :: ids[i] != ids[j])
    && forall i | 0 <= i < |ids| :: ids[i] !in weeks
  }

  lemma RegrownMatches(before: map<Id, Week>, after: map<Id, Week>, cycle: Id, old_: Cycle, c: Cycle, ids: seq<Id>)
    requires WeeksMatch(before, cycle, old_) && ProperShape(c.daysPerWeek, c.totalWeeks) && c.end == WeekEnd(c, c.totalWeeks)
    requires NewIds(before, ids, c.totalWeeks) && Regrown(before, after, cycle, old_.totalWeeks, c, ids)
    ensures WeeksMatch(after, cycle, c)
  {
    forall id | Live(after, id, cycle) ensures WeekFits(after[id], c) {
      if id in before { assert RowRegrown(before[id], after[id], cycle, c); }
    }
    forall a, b | Live(after, a, cycle) && Live(after, b, cycle) && after[a].number == after[b].number ensures a == b {
      if a in before { assert RowRegrown(before[a], after[a], cycle, c) && WeekFits(before[a], old_); }
      if b in before { assert RowRegrown(before[b], after[b], cycle, c) && WeekFits(before[b], old_); }
    }
    forall n | 1 <= n <= c.totalWeeks ensures HasWeek(after, cycle, n) {
      if n <= old_.totalWeeks {
        assert HasWeek(before, cycle, n);
        var id :| Live(before, id, cycle) && before[id].number == n;
        assert RowRegrown(before[id], after[id], cycle, c);
        assert Live(after, id, cycle);
      } else {
        assert AddedWeek(after, ids[n - 1], cycle, c, n);
        assert Live(after, ids[n - 1], cycle);
      }
    }
  }

  // ---------------------------------------------------------------- saving the weeks, row by row

  datatype Entry = Entry(id: Id, row: Week)

  // Another live row already has the number: the unique index on (cycle, number) of live rows.
  predicate Taken(weeks: map<Id, Week>, e: Entry) {
    !(e.id in weeks && weeks[e.id].deleted)
    && exists id | id in weeks :: id != e.id && weeks[id].cycle == e.row.cycle && !weeks[id].deleted && weeks[id].number == e.row.number
  }

  // What an upsert by id stores: the deletion mark is not among the columns written.
  function Stored(weeks: map<Id, Week>, e: Entry): Week { e.row.(deleted := e.id in weeks && weeks[e.id].deleted) }

  /**
   A taken number is skipped, if the transaction takes further statements after the violation. `poisoned` says
   it does not, as on Postgres without a savepoint: then the whole save fails (None).
   */
  function SaveOne(weeks: map<Id, Week>, e: Entry, poisoned: bool): Option<map<Id, Week>> {
    if !Taken(weeks, e) then Some(weeks[e.id := Stored(weeks, e)]) else if poisoned then None else Some(weeks)
  }

  function SaveAll(weeks: map<Id, Week>, entries: seq<Entry>, poisoned: bool): Option<map<Id, Week>> {
    if entries == [] then Some(weeks) else
    match SaveAll(weeks, entries[..|entries| - 1], poisoned)
    case None => None
    case Some(saved) => SaveOne(saved, entries[|entries| - 1], poisoned)
  }

  // The list an update or a creation hands over: one entry per number, from 1 on.
  ghost predicate InOrder(entries: seq<Entry>, cycle: Id) {
    && (forall i | 0 <= i < |entries| :: entries[i].row.cycle == cycle && entries[i].row.number == i + 1 && !entries[i].row.deleted)
    && forall i, j | 0 <= i < j < |entries| :: entries[i].id != entries[j].id
  }

  ghost predicate EntryFits(weeks: map<Id, Week>, e: Entry, cycle: Id) {
    && (e.id in weeks ==> weeks[e.id].cycle == cycle && weeks[e.id].number == e.row.number)
    && forall id | Live(weeks, id, cycle) && weeks[id].number == e.row.number :: id == e.id
  }

  ghost predicate Listed(entries: seq<Entry>, id: Id) { exists i | 0 <= i < |entries| :: entries[i].id == id }

  ghost predicate AllSaved(before: map<Id, Week>, after: map<Id, Week>, entries: seq<Entry>) {
    && (forall i | 0 <= i < |entries| :: entries[i].id in after && after[entries[i].id] == Stored(before, entries[i]))
    && (forall id | id in before :: id in after && (after[id] == before[id] || Listed(entries, id)))
    && (forall id | id in after && id !in before :: Listed(entries, id))
  }

  lemma NotTaken(weeks: map<Id, Week>, w: map<Id, Week>, init: seq<Entry>, e: Entry, cycle: Id)
    requires AllSaved(weeks, w, init) && InOrder(init + [e], cycle) && EntryFits(weeks, e, cycle)
    ensures !Taken(w, e) && !Listed(init, e.id)
  {
    assert (init + [e])[|init|] == e;
    forall i | 0 <= i < |init| ensures init[i].id != e.id && init[i].row.number != e.row.number {
      assert (init + [e])[i] == init[i];
    }
    forall id | id in w && id != e.id && w[id].cycle == e.row.cycle && !w[id].deleted ensures w[id].number != e.row.number {
      if i :| 0 <= i < |init| && init[i].id == id { assert w[id] == Stored(weeks, init[i]); } else { assert w[id] == weeks[id]; }
    }
  }

  lemma OneMoreSaved(weeks: map<Id, Week>, w: map<Id, Week>, init: seq<Entry>, e: Entry)
    requires AllSaved(weeks, w, init) && !Listed(init, e.id)
    ensures AllSaved(weeks, w[e.id := Stored(w, e)], init + [e])
  {
    assert (init + [e])[|init|] == e;
    assert Listed(init + [e], e.id);
    forall id | Listed(init, id) ensures Listed(init + [e], id) {
      var i :| 0 <= i < |init| && init[i].id == id;
      assert (init + [e])[i] == init[i];
    }
    forall i | 0 <= i < |init| ensures init[i].id != e.id { assert (init + [e])[i] == init[i]; }
    assert e.id in w <==> e.id in weeks;
  }

  /** Nothing is skipped, nor fails, when each entry is the row of its number and meets no other live one. */
  lemma {:induction false} SaveAllSaves(weeks: map<Id, Week>, entries: seq<Entry>, cycle: Id, poisoned: bool)
    requires InOrder(entries, cycle) && forall i | 0 <= i < |entries| :: EntryFits(weeks, entries[i], cycle)
    ensures SaveAll(weeks, entries, poisoned).Some? && AllSaved(weeks, SaveAll(weeks, entries, poisoned).value, entries)
  {
    if entries != [] {
      var n := |entries| - 1;
      assert entries == entries[..n] + [entries[n]];
      SaveAllSaves(weeks, entries[..n], cycle, poisoned);
      var saved := SaveAll(weeks, entries[..n], poisoned).value;
      NotTaken(weeks, saved, entries[..n], entries[n], cycle);
      OneMoreSaved(weeks, saved, entries[..n], entries[n]);
    }
  }

  // One entry, whatever it brings, never doubles a live number.
  lemma SaveKeepsNumbersOnce(weeks: map<Id, Week>, e: Entry, poisoned: bool, cycle: Id)
    requires NumbersOnce(weeks, cycle) && SaveOne(weeks, e, poisoned).Some?
    ensures NumbersOnce(SaveOne(weeks, e, poisoned).value, cycle)
  {
    var after := SaveOne(weeks, e, poisoned).value;
    forall a, b | Live(after, a, cycle) && Live(after, b, cycle) && after[a].number == after[b].number ensures a == b {
      if a != e.id { assert Live(weeks, a, cycle); }
      if b != e.id { assert Live(weeks, b, cycle); }
    }
  }

  /** The unique index holds through any save, whatever list it is given: a number taken by another live row is never stored twice. */
  lemma {:induction false} SavesKeepNumbersOnce(weeks: map<Id, Week>, entries: seq<Entry>, poisoned: bool, cycle: Id)
    requires NumbersOnce(weeks, cycle) && SaveAll(weeks, entries, poisoned).Some?
    ensures NumbersOnce(SaveAll(weeks, entries, poisoned).value, cycle)
  {
    if entries != [] {
      var n := |entries| - 1;
      SavesKeepNumbersOnce(weeks, entries[..n], poisoned, cycle);
      SaveKeepsNumbersOnce(SaveAll(weeks, entries[..n], poisoned).value, entries[n], poisoned, cycle);
    }
  }

  /** Such an entry costs itself, or with a transaction that does not survive the violation the whole save. */
  lemma TakenNumberCosts(weeks: map<Id, Week>, e: Entry, id: Id)
    requires Live(weeks, id, e.row.cycle) && weeks[id].number == e.row.number && id != e.id && !(e.id in weeks && weeks[e.id].deleted)
    ensures SaveAll(weeks, [e], false) == Some(weeks) && SaveAll(weeks, [e], true) == None
  {
    assert [e][..0] == [];
    assert SaveAll(weeks, [e][..0], false) == Some(weeks) && SaveAll(weeks, [e][..0], true) == Some(weeks);
  }

  function KeptIds(entries: seq<Entry>): set<Id> { set e | e in entries :: e.id }

  // The live weeks of the cycle that the list does not name are soft-deleted.
  function DeleteUnlisted(weeks: map<Id, Week>, cycle: Id, kept: set<Id>): map<Id, Week> {
    map k | k in weeks :: if weeks[k].cycle == cycle && !weeks[k].deleted && k !in kept then weeks[k].(deleted := true) else weeks[k]
  }

  function Replaced(weeks: map<Id, Week>, cycle: Id, entries: seq<Entry>, poisoned: bool): Option<map<Id, Week>> {
    SaveAll(DeleteUnlisted(weeks, cycle, KeptIds(entries)), entries, poisoned)
  }

  // ---------------------------------------------------------------- the operations, as relations

  datatype Store = Store(cycles: map<Id, Cycle>, weeks: map<Id, Week>)

  datatype Op =
    | Create(id: Id, start: int, daysPerWeek: int, totalWeeks: int, ids: seq<Id>)
    | Update(id: Id, change: Change, hasSyllabus: bool, ids: seq<Id>)
    | ShowWeek(id: Id, active: bool)
    | ShowCycle(id: Id, active: bool)

  function NewCycle(start: int, daysPerWeek: int, totalWeeks: int): Cycle {
    var c := Cycle(start, 0, daysPerWeek, totalWeeks, true);
    c.(end := WeekEnd(c, totalWeeks))
  }

  function UpdatedCycle(c: Cycle, change: Change): Cycle {
    var r := Revised(c, change);
    if r != c then r.(end := WeekEnd(r, r.totalWeeks)) else c
  }

  ghost predicate Allowed(s: Store, op: Op) {
    match op
    case Create(id, start, days, total, ids) => id !in s.cycles && ProperShape(days, total) && NewIds(s.weeks, ids, total)
    case Update(id, change, hasSyllabus, ids) =>
      ProperChange(change) && (id in s.cycles ==> NewIds(s.weeks, ids, Revised(s.cycles[id], change).totalWeeks))
    case _ => true
  }

  ghost predicate Refused(s: Store, id: Id, change: Change, hasSyllabus: bool) {
    id !in s.cycles || (NeedsRegrow(s.cycles[id], change) && hasSyllabus)
  }

  ghost predicate Does(s: Store, op: Op, t: Store) {
    match op
    case Create(id, start, days, total, ids) =>
      var c := NewCycle(start, days, total);
      t.cycles == s.cycles[id := c] && Regrown(s.weeks, t.weeks, id, 0, c, ids)
    case Update(id, change, hasSyllabus, ids) =>
      if Refused(s, id, change, hasSyllabus) then t == s else
      var c := UpdatedCycle(s.cycles[id], change);
      && t.cycles == s.cycles[id := c]
      && if c != s.cycles[id] then Regrown(s.weeks, t.weeks, id, s.cycles[id].totalWeeks, c, ids) else t.weeks == s.weeks
    case ShowWeek(id, active) => t == s.(weeks := if id in s.weeks then s.weeks[id := s.weeks[id].(active := active)] else s.weeks)
    case ShowCycle(id, active) => t == s.(cycles := if id in s.cycles then s.cycles[id := s.cycles[id].(active := active)] else s.cycles)
  }

  // After the deletion of the surplus, and after the save, the rows are as the relation says.
  ghost predicate SurplusDeleted(before: map<Id, Week>, after: map<Id, Week>, cycle: Id, entries: seq<Entry>) {
    && after.Keys == before.Keys
    && forall id | id in before ::
         after[id] == if Live(before, id, cycle) && !Listed(entries, id) then before[id].(deleted := true) else before[id]
  }

  // Entry i is the live week of its number, redated, or a new visible one.
  ghost predicate Rebuilt(weeks: map<Id, Week>, cycle: Id, c: Cycle, ids: seq<Id>, i: int, e: Entry)
    requires 0 <= i < |ids|
  {
    && e.row.cycle == cycle && e.row.number == i + 1 && !e.row.deleted
    && e.row.start == WeekStart(c, i + 1) && e.row.end == WeekEnd(c, i + 1)
    && if HasWeek(weeks, cycle, i + 1) then Live(weeks, e.id, cycle) && weeks[e.id].number == i + 1 && e.row.active == weeks[e.id].active
       else e.id == ids[i] && e.row.active
  }

  ghost predicate RebuiltAll(weeks: map<Id, Week>, cycle: Id, c: Cycle, ids: seq<Id>, entries: seq<Entry>) {
    |entries| <= |ids| && forall i | 0 <= i < |entries| :: Rebuilt(weeks, cycle, c, ids, i, entries[i])
  }

  lemma RebuiltInOrder(weeks: map<Id, Week>, cycle: Id, c: Cycle, ids: seq<Id>, entries: seq<Entry>)
    requires RebuiltAll(weeks, cycle, c, ids, entries) && NewIds(weeks, ids, |entries|)
    ensures InOrder(entries, cycle)
  {
    forall i, j | 0 <= i < j < |entries| ensures entries[i].id != entries[j].id {
      assert Rebuilt(weeks, cycle, c, ids, i, entries[i]) && Rebuilt(weeks, cycle, c, ids, j, entries[j]);
    }
    forall i | 0 <= i < |entries| ensures entries[i].row.number == i + 1 {
      assert Rebuilt(weeks, cycle, c, ids, i, entries[i]);
    }
  }

  lemma ListedIffSurvives(weeks: map<Id, Week>, cycle: Id, old_: Cycle, c: Cycle, ids: seq<Id>, entries: seq<Entry>, id: Id)
    requires NumbersOnce(weeks, cycle) && Live(weeks, id, cycle) && WeekFits(weeks[id], old_) && NewIds(weeks, ids, |entries|)
    requires RebuiltAll(weeks, cycle, c, ids, entries) && |entries| == c.totalWeeks
    ensures Listed(entries, id) <==> weeks[id].number <= c.totalWeeks
    ensures weeks[id].number <= c.totalWeeks ==> entries[weeks[id].number - 1].id == id
  {
    var k := weeks[id].number - 1;
    if k < c.totalWeeks {
      assert Rebuilt(weeks, cycle, c, ids, k, entries[k]);
    }
    if Listed(entries, id) {
      var i :| 0 <= i < |entries| && entries[i].id == id;
      assert Rebuilt(weeks, cycle, c, ids, i, entries[i]);
    }
  }

  lemma EntriesFit(weeks: map<Id, Week>, after: map<Id, Week>, cycle: Id, old_: Cycle, c: Cycle, ids: seq<Id>, entries: seq<Entry>)
    requires WeeksMatch(weeks, cycle, old_) && NewIds(weeks, ids, |entries|) && |entries| == c.totalWeeks
    requires RebuiltAll(weeks, cycle, c, ids, entries) && SurplusDeleted(weeks, after, cycle, entries)
    ensures forall i | 0 <= i < |entries| :: EntryFits(after, entries[i], cycle)
  {
    forall i | 0 <= i < |entries| ensures EntryFits(after, entries[i], cycle) {
      var e := entries[i];
      assert Rebuilt(weeks, cycle, c, ids, i, e);
      assert Listed(entries, e.id);
      forall id | Live(after, id, cycle) && after[id].number == e.row.number ensures id == e.id {
        assert Live(weeks, id, cycle);
        ListedIffSurvives(weeks, cycle, old_, c, ids, entries, id);
      }
    }
  }

  lemma SavedIsRegrown(weeks: map<Id, Week>, mid: map<Id, Week>, after: map<Id, Week>, cycle: Id, old_: Cycle, c: Cycle, ids: seq<Id>, entries: seq<Entry>)
    requires WeeksMatch(weeks, cycle, old_) && NewIds(weeks, ids, |entries|) && |entries| == c.totalWeeks
    requires RebuiltAll(weeks, cycle, c, ids, entries)
    requires SurplusDeleted(weeks, mid, cycle, entries) && AllSaved(mid, after, entries)
    ensures Regrown(weeks, after, cycle, old_.totalWeeks, c, ids)
  {
    forall id | id in weeks ensures id in after && RowRegrown(weeks[id], after[id], cycle, c) {
      if Live(weeks, id, cycle) {
        ListedIffSurvives(weeks, cycle, old_, c, ids, entries, id);
        if weeks[id].number <= c.totalWeeks {
          var k := weeks[id].number - 1;
          assert Rebuilt(weeks, cycle, c, ids, k, entries[k]);
          assert after[entries[k].id] == Stored(mid, entries[k]);
        }
      } else {
        NotListed(weeks, cycle, old_, c, ids, entries, id);
      }
    }
    forall i | old_.totalWeeks <= i < c.totalWeeks ensures AddedWeek(after, ids[i], cycle, c, i + 1) {
      assert Rebuilt(weeks, cycle, c, ids, i, entries[i]);
      assert after[entries[i].id] == Stored(mid, entries[i]);
    }
    forall id | id in after && id !in weeks ensures exists i | old_.totalWeeks <= i < c.totalWeeks :: id == ids[i] {
      assert Listed(entries, id);
      var i :| 0 <= i < |entries| && entries[i].id == id;
      assert Rebuilt(weeks, cycle, c, ids, i, entries[i]);
    }
  }

  lemma NotListed(weeks: map<Id, Week>, cycle: Id, old_: Cycle, c: Cycle, ids: seq<Id>, entries: seq<Entry>, id: Id)
    requires RebuiltAll(weeks, cycle, c, ids, entries) && NewIds(weeks, ids, |entries|)
    requires id in weeks && !Live(weeks, id, cycle)
    ensures !Listed(entries, id)
  {
    forall i | 0 <= i < |entries| ensures entries[i].id != id {
      assert Rebuilt(weeks, cycle, c, ids, i, entries[i]);
    }
  }

  lemma KeptAreListed(weeks: map<Id, Week>, cycle: Id, entries: seq<Entry>)
    ensures forall k :: k in KeptIds(entries) <==> Listed(entries, k)
    ensures SurplusDeleted(weeks, DeleteUnlisted(weeks, cycle, KeptIds(entries)), cycle, entries)
  {
    forall k | k in KeptIds(entries) ensures Listed(entries, k) {
      var e :| e in entries && e.id == k;
      var i :| 0 <= i < |entries| && entries[i] == e;
    }
  }

  /** What the repository writes of an update that saw `read` and built `entries` from it. */
  function Written(s: Store, id: Id, change: Change, read: Cycle, entries: seq<Entry>, poisoned: bool): Store
    requires NeedsRegrow(read, change) ==> entries != []
  {
    if id !in s.cycles then s else
    var c := Revised(s.cycles[id], change);
    if !NeedsRegrow(read, change) then s.(cycles := s.cycles[id := c]) else
    match Replaced(s.weeks, id, entries, poisoned)
    case None => s
    case Some(weeks) => Store(s.cycles[id := c.(end := entries[|entries| - 1].row.end)], weeks)
  }

  // An update that writes what it has just read regrows the weeks.
  lemma UpdateRegrows(s: Store, id: Id, change: Change, entries: seq<Entry>, ids: seq<Id>, poisoned: bool)
    requires id in s.cycles && WeeksMatch(s.weeks, id, s.cycles[id]) && NeedsRegrow(s.cycles[id], change) && ProperChange(change)
    requires NewIds(s.weeks, ids, |entries|) && |entries| == Revised(s.cycles[id], change).totalWeeks
    requires RebuiltAll(s.weeks, id, Revised(s.cycles[id], change), ids, entries)
    ensures var t := Written(s, id, change, s.cycles[id], entries, poisoned);
            var c := UpdatedCycle(s.cycles[id], change);
            c != s.cycles[id] && t.cycles == s.cycles[id := c] && Regrown(s.weeks, t.weeks, id, s.cycles[id].totalWeeks, c, ids)
  {
    var existing, revised := s.cycles[id], Revised(s.cycles[id], change);
    var mid := DeleteUnlisted(s.weeks, id, KeptIds(entries));
    KeptAreListed(s.weeks, id, entries);
    RebuiltInOrder(s.weeks, id, revised, ids, entries);
    EntriesFit(s.weeks, mid, id, existing, revised, ids, entries);
    SaveAllSaves(mid, entries, id, poisoned);
    var after := SaveAll(mid, entries, poisoned).value;
    SavedIsRegrown(s.weeks, mid, after, id, existing, revised, ids, entries);
    var last := |entries| - 1;
    assert Rebuilt(s.weeks, id, revised, ids, last, entries[last]);
    RegrownIgnoresEnd(s.weeks, after, id, existing.totalWeeks, revised, WeekEnd(revised, revised.totalWeeks), ids);
  }

  // ---------------------------------------------------------------- the store

  class CycleStore {
    var cycles: map<Id, Cycle>
    var weeks: map<Id, Week>

    ghost function State(): Store
      reads this
    {
      Store(cycles, weeks)
    }

    constructor ()
      ensures State() == Store(map[], map[])
    {
      cycles, weeks := map[], map[];
    }

    /** One row at a time, so that a taken number costs only its own week, if the transaction survives it. */
    method SaveWeeksSafely(entries: seq<Entry>, poisoned: bool) returns (ok: bool)
      modifies this`weeks
      ensures ok <==> SaveAll(old(weeks), entries, poisoned).Some?
      ensures ok ==> weeks == SaveAll(old(weeks), entries, poisoned).value
    {
      for k := 0 to |entries|
        invariant SaveAll(old(weeks), entries[..k], poisoned) == Some(weeks)
      {
        var e := entries[k];
        assert entries[..k + 1][..k] == entries[..k];
        if !Taken(weeks, e) {
          weeks := weeks[e.id := Stored(weeks, e)];
        } else if poisoned {
          SaveFails(old(weeks), entries, k + 1);
          return false;
        }
      }
      assert entries[..|entries|] == entries;
      return true;
    }

    method CreateCycle(id: Id, start: int, daysPerWeek: int, totalWeeks: int, ids: seq<Id>, poisoned: bool)
      requires Inv(cycles, weeks) && Allowed(State(), Create(id, start, daysPerWeek, totalWeeks, ids))
      modifies this
      ensures Does(old(State()), Create(id, start, daysPerWeek, totalWeeks, ids), State())
    {
      var c := Cycle(start, 0, daysPerWeek, totalWeeks, true);
      var entries := [];
      for i := 1 to totalWeeks + 1
        invariant |entries| == i - 1 && RebuiltAll(weeks, id, c, ids, entries)
      {
        var from := start + (i - 1) * 7;
        var until := from + (daysPerWeek - 1);
        entries := entries + [Entry(ids[i - 1], Week(id, i, from, until, true, false))];
      }
      cycles := cycles[id := c.(end := entries[|entries| - 1].row.end)];
      RebuiltInOrder(weeks, id, c, ids, entries);
      forall i | 0 <= i < |entries| ensures EntryFits(weeks, entries[i], id) && entries[i].id == ids[i] {
        assert Rebuilt(weeks, id, c, ids, i, entries[i]);
      }
      SaveAllSaves(weeks, entries, id, poisoned);
      var ok := SaveWeeksSafely(entries, poisoned);
      CreatedIsRegrown(old(weeks), weeks, id, c, ids, entries);
      RegrownIgnoresEnd(old(weeks), weeks, id, 0, c, cycles[id].end, ids);
    }

    method UpdateCycle(id: Id, change: Change, hasSyllabus: bool, ids: seq<Id>, poisoned: bool) returns (r: Result<(), Error>)
      requires Inv(cycles, weeks) && Allowed(State(), Update(id, change, hasSyllabus, ids))
      modifies this
      ensures Does(old(State()), Update(id, change, hasSyllabus, ids), State())
      ensures r == if id !in old(cycles) then Failure(NotFound)
                   else if NeedsRegrow(old(cycles)[id], change) && hasSyllabus then Failure(HasSyllabus) else Success(())
    {
      if id !in cycles { return Failure(NotFound); }
      var existing := cycles[id];
      var revised := Revised(existing, change);
      if revised == existing { return Success(()); }
      if hasSyllabus { return Failure(HasSyllabus); }
      var entries := BuildWeeks(id, revised, ids);
      UpdateRegrows(State(), id, change, entries, ids, poisoned);
      WriteUpdate(id, change, existing, entries, poisoned);
      return Success(());
    }

    /** The repository's half, on the tables as they are when it runs: what was read may have changed since. */
    method WriteUpdate(id: Id, change: Change, read: Cycle, entries: seq<Entry>, poisoned: bool)
      requires NeedsRegrow(read, change) ==> entries != []
      modifies this
      ensures State() == Written(old(State()), id, change, read, entries, poisoned)
    {
      if id !in cycles { return; }
      var before, weeksBefore := cycles, weeks;
      cycles := cycles[id := Revised(cycles[id], change)];
      if NeedsRegrow(read, change) {
        cycles := cycles[id := cycles[id].(end := entries[|entries| - 1].row.end)];
        weeks := DeleteUnlisted(weeks, id, KeptIds(entries));
        var ok := SaveWeeksSafely(entries, poisoned);
        if !ok { cycles, weeks := before, weeksBefore; }
      }
    }

    // The new list of weeks: the id and the visibility of a number that exists are carried over.
    method BuildWeeks(id: Id, revised: Cycle, ids: seq<Id>) returns (entries: seq<Entry>)
      requires ProperShape(revised.daysPerWeek, revised.totalWeeks) && NewIds(weeks, ids, revised.totalWeeks)
      ensures |entries| == revised.totalWeeks && RebuiltAll(weeks, id, revised, ids, entries)
    {
      entries := [];
      for i := 1 to revised.totalWeeks + 1
        invariant |entries| == i - 1 && RebuiltAll(weeks, id, revised, ids, entries)
      {
        var from := revised.start + (i - 1) * 7;
        var until := from + (revised.daysPerWeek - 1);
        if found :| found in weeks && weeks[found].cycle == id && !weeks[found].deleted && weeks[found].number == i {
          assert Live(weeks, found, id) && HasWeek(weeks, id, i);
          entries := entries + [Entry(found, Week(id, i, from, until, weeks[found].active, false))];
        } else {
          assert !HasWeek(weeks, id, i);
          entries := entries + [Entry(ids[i - 1], Week(id, i, from, until, true, false))];
        }
      }
    }

    method ToggleWeekVisibility(id: Id, active: bool)
      modifies this`weeks
      ensures Does(old(State()), ShowWeek(id, active), State())
    {
      if id in weeks { weeks := weeks[id := weeks[id].(active := active)]; }
    }

    method ToggleCycleVisibility(id: Id, active: bool)
      modifies this`cycles
      ensures Does(old(State()), ShowCycle(id, active), State())
    {
      if id in cycles { cycles := cycles[id := cycles[id].(active := active)]; }
    }
  }

  lemma {:induction false} SaveFails(weeks: map<Id, Week>, entries: seq<Entry>, k: nat)
    requires k <= |entries| && SaveAll(weeks, entries[..k], true).None?
    ensures SaveAll(weeks, entries, true).None?
    decreases |entries| - k
  {
    if k < |entries| {
      assert entries[..k + 1][..k] == entries[..k];
      SaveFails(weeks, entries, k + 1);
    } else {
      assert entries[..k] == entries;
    }
  }

  lemma RegrownIgnoresEnd(before: map<Id, Week>, after: map<Id, Week>, cycle: Id, from: int, c: Cycle, end: int, ids: seq<Id>)
    requires Regrown(before, after, cycle, from, c, ids)
    ensures Regrown(before, after, cycle, from, c.(end := end), ids)
  {
    var d := c.(end := end);
    forall id | id in before ensures id in after && RowRegrown(before[id], after[id], cycle, d) {
      assert RowRegrown(before[id], after[id], cycle, c);
    }
    forall i | from <= i < d.totalWeeks ensures AddedWeek(after, ids[i], cycle, d, i + 1) {
      assert AddedWeek(after, ids[i], cycle, c, i + 1);
    }
  }

  lemma CreatedIsRegrown(weeks: map<Id, Week>, after: map<Id, Week>, cycle: Id, c: Cycle, ids: seq<Id>, entries: seq<Entry>)
    requires forall id | id in weeks :: weeks[id].cycle != cycle
    requires RebuiltAll(weeks, cycle, c, ids, entries) && |entries| == c.totalWeeks && NewIds(weeks, ids, |entries|)
    requires AllSaved(weeks, after, entries)
    ensures Regrown(weeks, after, cycle, 0, c, ids)
  {
    forall i | 0 <= i < |entries| ensures entries[i].id == ids[i] && AddedWeek(after, ids[i], cycle, c, i + 1) {
      assert Rebuilt(weeks, cycle, c, ids, i, entries[i]);
      assert after[entries[i].id] == Stored(weeks, entries[i]);
    }
    forall id | id in weeks ensures id in after && RowRegrown(weeks[id], after[id], cycle, c) {
      forall i | 0 <= i < |entries| ensures entries[i].id != id {}
    }
    forall id | id in after && id !in weeks ensures exists i | 0 <= i < c.totalWeeks :: id == ids[i] {
      var i :| 0 <= i < |entries| && entries[i].id == id;
      assert id == ids[i];
    }
  }

  // ---------------------------------------------------------------- over every run

  lemma OthersMatch(before: map<Id, Week>, after: map<Id, Week>, cycle: Id, c: Cycle)
    requires WeeksMatch(before, cycle, c)
    requires forall id :: Live(after, id, cycle) <==> Live(before, id, cycle)
    requires forall id | Live(before, id, cycle) :: id in after && after[id].(active := before[id].active) == before[id]
    ensures WeeksMatch(after, cycle, c)
  {
    forall id | Live(after, id, cycle) ensures WeekFits(after[id], c) { assert WeekFits(before[id], c); }
    forall n | 1 <= n <= c.totalWeeks ensures HasWeek(after, cycle, n) {
      assert HasWeek(before, cycle, n);
      var id :| Live(before, id, cycle) && before[id].number == n;
      assert Live(after, id, cycle);
    }
  }

  lemma RegrowLeavesOthers(before: map<Id, Week>, after: map<Id, Week>, cycle: Id, from: int, c: Cycle, ids: seq<Id>, other: Id, d: Cycle)
    requires Regrown(before, after, cycle, from, c, ids) && other != cycle && WeeksMatch(before, other, d)
    ensures WeeksMatch(after, other, d)
  {
    forall id ensures Live(after, id, other) <==> Live(before, id, other) {
      if id in before { assert RowRegrown(before[id], after[id], cycle, c); }
      else if id in after {
        var i :| from <= i < c.totalWeeks && id == ids[i];
        assert AddedWeek(after, ids[i], cycle, c, i + 1);
      }
    }
    forall id | Live(before, id, other) ensures after[id] == before[id] { assert RowRegrown(before[id], after[id], cycle, c); }
    OthersMatch(before, after, other, d);
  }

  lemma StepKeepsInv(s: Store, op: Op, t: Store)
    requires Inv(s.cycles, s.weeks) && Allowed(s, op) && Does(s, op, t)
    ensures Inv(t.cycles, t.weeks)
  {
    match op
    case Create(id, start, days, total, ids) =>
      CreateKeepsInv(s, id, NewCycle(start, days, total), ids, t);
    case Update(id, change, hasSyllabus, ids) =>
      if !Refused(s, id, change, hasSyllabus) { UpdateKeepsInv(s, id, UpdatedCycle(s.cycles[id], change), ids, t); }
    case ShowWeek(id, active) =>
      forall c | c in t.cycles ensures WeeksMatch(t.weeks, c, t.cycles[c]) { OthersMatch(s.weeks, t.weeks, c, s.cycles[c]); }
    case ShowCycle(id, active) =>
      forall c | c in t.cycles ensures WeeksMatch(t.weeks, c, t.cycles[c]) { SettingsMatter(s.weeks, c, s.cycles[c], t.cycles[c]); }
  }

  // What a cycle's weeks depend on.
  lemma SettingsMatter(weeks: map<Id, Week>, cycle: Id, c: Cycle, d: Cycle)
    requires WeeksMatch(weeks, cycle, c) && d.(active := c.active) == c
    ensures WeeksMatch(weeks, cycle, d)
  {
    forall id | Live(weeks, id, cycle) ensures WeekFits(weeks[id], d) { assert WeekFits(weeks[id], c); }
  }

  lemma OwnersExist(s: Store, id: Id, from: int, c: Cycle, ids: seq<Id>, t: Store)
    requires Inv(s.cycles, s.weeks) && t.cycles == s.cycles[id := c] && Regrown(s.weeks, t.weeks, id, from, c, ids)
    ensures forall w | w in t.weeks :: t.weeks[w].cycle in t.cycles
  {
    forall w | w in t.weeks ensures t.weeks[w].cycle in t.cycles {
      if w in s.weeks { assert RowRegrown(s.weeks[w], t.weeks[w], id, c); } else {
        var i :| from <= i < c.totalWeeks && w == ids[i];
        assert AddedWeek(t.weeks, ids[i], id, c, i + 1);
      }
    }
  }

  lemma CreateKeepsInv(s: Store, id: Id, c: Cycle, ids: seq<Id>, t: Store)
    requires Inv(s.cycles, s.weeks) && id !in s.cycles && NewIds(s.weeks, ids, c.totalWeeks)
    requires ProperShape(c.daysPerWeek, c.totalWeeks) && c.end == WeekEnd(c, c.totalWeeks)
    requires t.cycles == s.cycles[id := c] && Regrown(s.weeks, t.weeks, id, 0, c, ids)
    ensures Inv(t.cycles, t.weeks)
  {
    OwnersExist(s, id, 0, c, ids, t);
    forall o | o in t.cycles ensures WeeksMatch(t.weeks, o, t.cycles[o]) {
      if o == id { NewbornMatches(s.weeks, t.weeks, id, c, ids); }
      else { RegrowLeavesOthers(s.weeks, t.weeks, id, 0, c, ids, o, s.cycles[o]); }
    }
  }

  lemma NewbornMatches(before: map<Id, Week>, after: map<Id, Week>, cycle: Id, c: Cycle, ids: seq<Id>)
    requires forall id | id in before :: before[id].cycle != cycle
    requires ProperShape(c.daysPerWeek, c.totalWeeks) && c.end == WeekEnd(c, c.totalWeeks) && NewIds(before, ids, c.totalWeeks)
    requires Regrown(before, after, cycle, 0, c, ids)
    ensures WeeksMatch(after, cycle, c)
  {
    forall id | Live(after, id, cycle) ensures id !in before && exists i | 0 <= i < c.totalWeeks :: id == ids[i] && after[id].number == i + 1 && WeekFits(after[id], c) {
      var i :| 0 <= i < c.totalWeeks && id == ids[i];
      assert AddedWeek(after, ids[i], cycle, c, i + 1);
    }
    forall n | 1 <= n <= c.totalWeeks ensures HasWeek(after, cycle, n) {
      assert AddedWeek(after, ids[n - 1], cycle, c, n - 1 + 1);
      assert Live(after, ids[n - 1], cycle);
    }
  }

  lemma UpdateKeepsInv(s: Store, id: Id, c: Cycle, ids: seq<Id>, t: Store)
    requires Inv(s.cycles, s.weeks) && id in s.cycles && NewIds(s.weeks, ids, c.totalWeeks)
    requires ProperShape(c.daysPerWeek, c.totalWeeks) && c.end == WeekEnd(c, c.totalWeeks)
    requires t.cycles == s.cycles[id := c]
    requires if c != s.cycles[id] then Regrown(s.weeks, t.weeks, id, s.cycles[id].totalWeeks, c, ids) else t.weeks == s.weeks
    ensures Inv(t.cycles, t.weeks)
  {
    if c == s.cycles[id] {
      assert t.cycles == s.cycles;
    } else {
      OwnersExist(s, id, s.cycles[id].totalWeeks, c, ids, t);
      forall o | o in t.cycles ensures WeeksMatch(t.weeks, o, t.cycles[o]) {
        if o == id { RegrownMatches(s.weeks, t.weeks, id, s.cycles[id], c, ids); }
        else { RegrowLeavesOthers(s.weeks, t.weeks, id, s.cycles[id].totalWeeks, c, ids, o, s.cycles[o]); }
      }
    }
  }

  // `states` is a run of `ops`: each operation is allowed where it happens and does what it does.
  ghost predicate Run(states: seq<Store>, ops: seq<Op>) {
    && |states| == |ops| + 1
    && forall k | 0 <= k < |ops| :: Allowed(states[k], ops[k]) && Does(states[k], ops[k], states[k + 1])
  }

  /** Over every run of creations, updates and toggles, every cycle's weeks are exactly its weeks. */
  lemma {:induction false} InvAlongRun(states: seq<Store>, ops: seq<Op>, k: nat)
    requires Run(states, ops) && Inv(states[0].cycles, states[0].weeks) && k <= |ops|
    ensures Inv(states[k].cycles, states[k].weeks)
  {
    if k > 0 {
      InvAlongRun(states, ops, k - 1);
      StepKeepsInv(states[k - 1], ops[k - 1], states[k]);
    }
  }

  /**
   The operations, in the words of the request: a cycle is created with what was sent; an update stores each
   setting sent and keeps each left out, unless that would change one under an active syllabus, when nothing
   changes; a toggle sets the visibility of that week, or cycle; and no other cycle is touched.
   */
  lemma OperationsStoreWhatIsSent(s: Store, op: Op, t: Store)
    requires Does(s, op, t)
    ensures op.Create? ==> op.id in t.cycles && var c := t.cycles[op.id];
              c.start == op.start && c.daysPerWeek == op.daysPerWeek && c.totalWeeks == op.totalWeeks && c.active
              && c.end == op.start + 7 * (op.totalWeeks - 1) + op.daysPerWeek - 1
    ensures op.Update? && op.id in s.cycles ==> op.id in t.cycles && var c, d, change := s.cycles[op.id], t.cycles[op.id], op.change;
              var same := change.start in [None, Some(c.start)] && change.daysPerWeek in [None, Some(c.daysPerWeek)] && change.totalWeeks in [None, Some(c.totalWeeks)];
              && (same || op.hasSyllabus ==> t == s)
              && (!same && !op.hasSyllabus ==>
                    (if change.start.Some? then d.start == change.start.value else d.start == c.start)
                    && (if change.daysPerWeek.Some? then d.daysPerWeek == change.daysPerWeek.value else d.daysPerWeek == c.daysPerWeek)
                    && (if change.totalWeeks.Some? then d.totalWeeks == change.totalWeeks.value else d.totalWeeks == c.totalWeeks)
                    && d.active == c.active && d.end == d.start + 7 * (d.totalWeeks - 1) + d.daysPerWeek - 1)
    ensures op.ShowWeek? && op.id in s.weeks ==> op.id in t.weeks && t.weeks[op.id].active == op.active
    ensures op.ShowCycle? && op.id in s.cycles ==> op.id in t.cycles && t.cycles[op.id].active == op.active && t.weeks == s.weeks
    ensures op.ShowWeek? ==> t.cycles == s.cycles
    ensures forall c | c in s.cycles && c != op.id :: c in t.cycles && t.cycles[c] == s.cycles[c]
  {
    if op.Update? && op.id in s.cycles {
      assert s.cycles == s.cycles[op.id := s.cycles[op.id]];
    }
  }

  lemma StepKeepsRow(s: Store, op: Op, t: Store, id: Id)
    requires Does(s, op, t) && id in s.weeks
    ensures id in t.weeks && t.weeks[id].cycle == s.weeks[id].cycle && t.weeks[id].number == s.weeks[id].number
    ensures s.weeks[id].deleted ==> t.weeks[id].deleted
    ensures op != ShowWeek(id, true) && op != ShowWeek(id, false) ==> t.weeks[id].active == s.weeks[id].active
  {
    match op
    case Create(c, start, days, total, ids) =>
      assert RowRegrown(s.weeks[id], t.weeks[id], c, NewCycle(start, days, total));
    case Update(c, change, hasSyllabus, ids) =>
      if !Refused(s, c, change, hasSyllabus) && UpdatedCycle(s.cycles[c], change) != s.cycles[c] {
        assert RowRegrown(s.weeks[id], t.weeks[id], c, UpdatedCycle(s.cycles[c], change));
      }
    case ShowWeek(_, _) =>
    case ShowCycle(_, _) =>
  }

  /**
   Identity over whole runs: a week's id keeps its cycle and its number for ever, a dropped id never
   comes back, and only an explicit toggle of that very week changes its visibility.
   */
  lemma {:induction false} RowsKeepIdentity(states: seq<Store>, ops: seq<Op>, from: nat, k: nat, id: Id)
    requires Run(states, ops) && from <= k <= |ops| && id in states[from].weeks
    ensures id in states[k].weeks && states[k].weeks[id].cycle == states[from].weeks[id].cycle && states[k].weeks[id].number == states[from].weeks[id].number
    ensures states[from].weeks[id].deleted ==> states[k].weeks[id].deleted
    ensures (forall i | from <= i < k :: !(ops[i].ShowWeek? && ops[i].id == id)) ==> states[k].weeks[id].active == states[from].weeks[id].active
  {
    if from < k {
      RowsKeepIdentity(states, ops, from, k - 1, id);
      StepKeepsRow(states[k - 1], ops[k - 1], states[k], id);
    }
  }

  /** A number that survives an update keeps its row; one that shrinking drops and growing restores gets a new, visible one. */
  lemma RegrowthIsNew(s: Store, id: Id, change: Change, ids: seq<Id>, t: Store, week: Id)
    requires Inv(s.cycles, s.weeks) && Allowed(s, Update(id, change, false, ids)) && Does(s, Update(id, change, false, ids), t)
    requires id in s.cycles && Live(t.weeks, week, id)
    ensures t.weeks[week].number <= s.cycles[id].totalWeeks <==> Live(s.weeks, week, id)
    ensures !Live(s.weeks, week, id) ==> week !in s.weeks && t.weeks[week].active
  {
    var c := UpdatedCycle(s.cycles[id], change);
    assert WeeksMatch(s.weeks, id, s.cycles[id]);
    if c != s.cycles[id] {
      if week in s.weeks { assert RowRegrown(s.weeks[week], t.weeks[week], id, c); } else {
        var i :| s.cycles[id].totalWeeks <= i < c.totalWeeks && week == ids[i];
        assert AddedWeek(t.weeks, ids[i], id, c, i + 1);
      }
    }
    if Live(s.weeks, week, id) { assert WeekFits(s.weeks[week], s.cycles[id]); }
  }

  // ---------------------------------------------------------------- an update written from an old read

  // Rows outlive whatever happens between a read and a write, with their cycle and number; deletions stay.
  ghost predicate Since(seen: map<Id, Week>, now: map<Id, Week>) {
    forall id | id in seen :: id in now && now[id].cycle == seen[id].cycle && now[id].number == seen[id].number && (seen[id].deleted ==> now[id].deleted)
  }

  // The list an update built from `read` and, by a later statement, `seen`, with ids that are still new.
  ghost predicate BuiltFrom(seen: map<Id, Week>, cycle: Id, read: Cycle, change: Change, now: map<Id, Week>, ids: seq<Id>, entries: seq<Entry>) {
    && |entries| == Revised(read, change).totalWeeks && NewIds(now, ids, |entries|)
    && RebuiltAll(seen, cycle, Revised(read, change), ids, entries)
  }

  // Entry i's week was read, and dropped since.
  ghost predicate Dropped(seen: map<Id, Week>, now: map<Id, Week>, cycle: Id, entries: seq<Entry>, i: nat)
    requires i < |entries|
  {
    Live(seen, entries[i].id, cycle) && !Live(now, entries[i].id, cycle)
  }

  // Entry i as it ends up: its row as built, unless its week was dropped.
  ghost predicate EndsAs(after: map<Id, Week>, e: Entry, dropped: bool) { e.id in after && after[e.id] == e.row.(deleted := dropped) }

  ghost predicate OnlyListedLive(after: map<Id, Week>, cycle: Id, entries: seq<Entry>) { forall id | Live(after, id, cycle) :: Listed(entries, id) }

  lemma EntryOfRow(seen: map<Id, Week>, now: map<Id, Week>, cycle: Id, read: Cycle, change: Change, ids: seq<Id>, entries: seq<Entry>, i: nat)
    requires Since(seen, now) && BuiltFrom(seen, cycle, read, change, now, ids, entries) && i < |entries|
    ensures entries[i].row.number == i + 1 && !entries[i].row.deleted && entries[i].row.cycle == cycle
    ensures if Live(seen, entries[i].id, cycle) then entries[i].id in now && now[entries[i].id].cycle == cycle && now[entries[i].id].number == i + 1
            else entries[i].id == ids[i] && entries[i].id !in now
  {
    assert Rebuilt(seen, cycle, Revised(read, change), ids, i, entries[i]);
  }

  lemma StaleFits(seen: map<Id, Week>, now: map<Id, Week>, cycle: Id, read: Cycle, change: Change, ids: seq<Id>, entries: seq<Entry>)
    requires Since(seen, now) && BuiltFrom(seen, cycle, read, change, now, ids, entries)
    ensures InOrder(entries, cycle)
    ensures forall i | 0 <= i < |entries| :: EntryFits(DeleteUnlisted(now, cycle, KeptIds(entries)), entries[i], cycle)
  {
    var mid := DeleteUnlisted(now, cycle, KeptIds(entries));
    KeptAreListed(now, cycle, entries);
    forall i | 0 <= i < |entries| ensures entries[i].row.cycle == cycle && entries[i].row.number == i + 1 && !entries[i].row.deleted {
      EntryOfRow(seen, now, cycle, read, change, ids, entries, i);
    }
    forall i, j | 0 <= i < j < |entries| ensures entries[i].id != entries[j].id {
      EntryOfRow(seen, now, cycle, read, change, ids, entries, i);
      EntryOfRow(seen, now, cycle, read, change, ids, entries, j);
    }
    forall i | 0 <= i < |entries| ensures EntryFits(mid, entries[i], cycle) {
      EntryOfRow(seen, now, cycle, read, change, ids, entries, i);
      forall id | Live(mid, id, cycle) && mid[id].number == entries[i].row.number ensures id == entries[i].id {
        assert Listed(entries, id);
        var k :| 0 <= k < |entries| && entries[k].id == id;
        EntryOfRow(seen, now, cycle, read, change, ids, entries, k);
      }
    }
  }

  /**
   What a regrow written from an old read leaves: no number is ever taken, so nothing is skipped and nothing
   fails; every week it did not see is dropped, whoever added it; and the weeks of its list carry the dates and
   the visibility it read, those dropped meanwhile staying dropped.
   */
  lemma StaleRegrowFacts(seen: map<Id, Week>, now: map<Id, Week>, cycle: Id, read: Cycle, change: Change, ids: seq<Id>, entries: seq<Entry>, poisoned: bool)
    requires Since(seen, now) && BuiltFrom(seen, cycle, read, change, now, ids, entries)
    ensures Replaced(now, cycle, entries, poisoned).Some?
    ensures OnlyListedLive(Replaced(now, cycle, entries, poisoned).value, cycle, entries)
    ensures forall id | Live(now, id, cycle) && !Listed(entries, id) ::
              id in Replaced(now, cycle, entries, poisoned).value && Replaced(now, cycle, entries, poisoned).value[id].deleted
    ensures forall i | 0 <= i < |entries| :: EndsAs(Replaced(now, cycle, entries, poisoned).value, entries[i], Dropped(seen, now, cycle, entries, i))
  {
    var mid := DeleteUnlisted(now, cycle, KeptIds(entries));
    KeptAreListed(now, cycle, entries);
    StaleFits(seen, now, cycle, read, change, ids, entries);
    SaveAllSaves(mid, entries, cycle, poisoned);
    var after := SaveAll(mid, entries, poisoned).value;
    forall i | 0 <= i < |entries| ensures EndsAs(after, entries[i], Dropped(seen, now, cycle, entries, i)) {
      EntryOfRow(seen, now, cycle, read, change, ids, entries, i);
      assert after[entries[i].id] == Stored(mid, entries[i]) && Listed(entries, entries[i].id);
    }
  }

  ghost predicate SameSettings(c: Cycle, r: Cycle) { c.start == r.start && c.daysPerWeek == r.daysPerWeek && c.totalWeeks == r.totalWeeks }

  // The rows an old read's list ends up as, on the dates of the settings `r` it was built for.
  ghost predicate Regrew(after: map<Id, Week>, cycle: Id, r: Cycle, entries: seq<Entry>, dropped: set<nat>) {
    && |entries| == r.totalWeeks && InOrder(entries, cycle) && OnlyListedLive(after, cycle, entries)
    && forall i | 0 <= i < |entries| ::
         EndsAs(after, entries[i], i in dropped) && entries[i].row.start == WeekStart(r, i + 1) && entries[i].row.end == WeekEnd(r, i + 1)
  }

  lemma StaleRegrew(seen: map<Id, Week>, now: map<Id, Week>, cycle: Id, read: Cycle, change: Change, ids: seq<Id>, entries: seq<Entry>, poisoned: bool, dropped: set<nat>)
      returns (after: map<Id, Week>)
    requires Since(seen, now) && BuiltFrom(seen, cycle, read, change, now, ids, entries)
    requires dropped == set i: nat | i < |entries| && Dropped(seen, now, cycle, entries, i)
    ensures Replaced(now, cycle, entries, poisoned) == Some(after) && Regrew(after, cycle, Revised(read, change), entries, dropped)
  {
    StaleRegrowFacts(seen, now, cycle, read, change, ids, entries, poisoned);
    StaleFits(seen, now, cycle, read, change, ids, entries);
    after := Replaced(now, cycle, entries, poisoned).value;
    forall i | 0 <= i < |entries|
      ensures EndsAs(after, entries[i], i in dropped)
      ensures entries[i].row.start == WeekStart(Revised(read, change), i + 1) && entries[i].row.end == WeekEnd(Revised(read, change), i + 1)
    {
      assert EndsAs(after, entries[i], Dropped(seen, now, cycle, entries, i));
      assert Rebuilt(seen, cycle, Revised(read, change), ids, i, entries[i]);
    }
  }

  // Whatever it saw, such a write removes no row and moves none: what others read before it is still there.
  lemma StaleWriteKeepsRows(seen: map<Id, Week>, s: Store, id: Id, read: Cycle, change: Change, ids: seq<Id>, entries: seq<Entry>, poisoned: bool)
    requires Since(seen, s.weeks) && ProperShape(Revised(read, change).daysPerWeek, Revised(read, change).totalWeeks)
    requires NeedsRegrow(read, change) ==> BuiltFrom(seen, id, read, change, s.weeks, ids, entries)
    ensures NeedsRegrow(read, change) ==> entries != []
    ensures Since(s.weeks, Written(s, id, change, read, entries, poisoned).weeks)
  {
    if id in s.cycles && NeedsRegrow(read, change) {
      var mid := DeleteUnlisted(s.weeks, id, KeptIds(entries));
      StaleFits(seen, s.weeks, id, read, change, ids, entries);
      SaveAllSaves(mid, entries, id, poisoned);
      var after := SaveAll(mid, entries, poisoned).value;
      forall w | w in s.weeks
        ensures w in after && after[w].cycle == s.weeks[w].cycle && after[w].number == s.weeks[w].number && (s.weeks[w].deleted ==> after[w].deleted)
      {
        if i :| 0 <= i < |entries| && entries[i].id == w {
          EntryOfRow(seen, s.weeks, id, read, change, ids, entries, i);
          assert after[w] == Stored(mid, entries[i]);
        }
      }
    }
  }

  // Each setting the change leaves out (or, with no regrow, sets) is now what it was when read.
  ghost predicate SettingsAsRead(read: Cycle, now: Cycle, change: Change) {
    var regrow := NeedsRegrow(read, change);
    && (change.start.None? == regrow ==> now.start == read.start)
    && (change.daysPerWeek.None? == regrow ==> now.daysPerWeek == read.daysPerWeek)
    && (change.totalWeeks.None? == regrow ==> now.totalWeeks == read.totalWeeks)
  }

  lemma LiveEntry(after: map<Id, Week>, cycle: Id, r: Cycle, entries: seq<Entry>, dropped: set<nat>, id: Id) returns (i: nat)
    requires Regrew(after, cycle, r, entries, dropped) && Live(after, id, cycle)
    ensures i < |entries| && entries[i].id == id && i !in dropped && after[id] == entries[i].row
  {
    i :| 0 <= i < |entries| && entries[i].id == id;
    assert EndsAs(after, entries[i], i in dropped);
  }

  lemma RegrewMatches(after: map<Id, Week>, cycle: Id, r: Cycle, c: Cycle, entries: seq<Entry>)
    requires ProperShape(r.daysPerWeek, r.totalWeeks) && SameSettings(c, r) && c.end == WeekEnd(r, r.totalWeeks)
    requires Regrew(after, cycle, r, entries, {})
    ensures WeeksMatch(after, cycle, c)
  {
    forall id | Live(after, id, cycle) ensures WeekFits(after[id], c) {
      var i := LiveEntry(after, cycle, r, entries, {}, id);
    }
    forall a, b | Live(after, a, cycle) && Live(after, b, cycle) && after[a].number == after[b].number ensures a == b {
      var i := LiveEntry(after, cycle, r, entries, {}, a);
      var j := LiveEntry(after, cycle, r, entries, {}, b);
    }
    forall n | 1 <= n <= c.totalWeeks ensures HasWeek(after, cycle, n) {
      assert EndsAs(after, entries[n - 1], false);
      assert Live(after, entries[n - 1].id, cycle);
    }
  }

  lemma MatchingDropsNone(after: map<Id, Week>, cycle: Id, r: Cycle, c: Cycle, entries: seq<Entry>, dropped: set<nat>, i: nat)
    requires Regrew(after, cycle, r, entries, dropped) && WeeksMatch(after, cycle, c) && i < |entries| && i < c.totalWeeks
    ensures i !in dropped
  {
    assert HasWeek(after, cycle, i + 1);
    var id :| Live(after, id, cycle) && after[id].number == i + 1;
    var j := LiveEntry(after, cycle, r, entries, dropped, id);
  }

  lemma MatchingSettles(after: map<Id, Week>, cycle: Id, r: Cycle, c: Cycle, entries: seq<Entry>, dropped: set<nat>)
    requires ProperShape(r.daysPerWeek, r.totalWeeks) && c.end == WeekEnd(r, r.totalWeeks)
    requires Regrew(after, cycle, r, entries, dropped) && WeeksMatch(after, cycle, c)
    ensures SameSettings(c, r)
  {
    MatchingDropsNone(after, cycle, r, c, entries, dropped, 0);
    assert EndsAs(after, entries[0], false);
    assert Live(after, entries[0].id, cycle) && WeekFits(after[entries[0].id], c);
  }

  lemma RegrewMatchesIff(after: map<Id, Week>, cycle: Id, r: Cycle, c: Cycle, entries: seq<Entry>, dropped: set<nat>)
    requires ProperShape(r.daysPerWeek, r.totalWeeks) && c.end == WeekEnd(r, r.totalWeeks) && Regrew(after, cycle, r, entries, dropped)
    requires forall i | i in dropped :: i < |entries|
    ensures WeeksMatch(after, cycle, c) <==> SameSettings(c, r) && dropped == {}
  {
    if WeeksMatch(after, cycle, c) {
      MatchingSettles(after, cycle, r, c, entries, dropped);
      forall i | i in dropped ensures false { MatchingDropsNone(after, cycle, r, c, entries, dropped, i); }
    }
    if SameSettings(c, r) && dropped == {} { RegrewMatches(after, cycle, r, c, entries); }
  }

  lemma UnregrownMatchesIff(weeks: map<Id, Week>, cycle: Id, c: Cycle, d: Cycle)
    requires WeeksMatch(weeks, cycle, c) && ProperShape(d.daysPerWeek, d.totalWeeks) && d.end == c.end
    ensures WeeksMatch(weeks, cycle, d) <==> SameSettings(d, c)
  {
    assert HasWeek(weeks, cycle, 1);
    var id :| Live(weeks, id, cycle) && weeks[id].number == 1;
    assert WeekFits(weeks[id], c);
    if SameSettings(d, c) {
      forall w | Live(weeks, w, cycle) ensures WeekFits(weeks[w], d) { assert WeekFits(weeks[w], c); }
    }
    if WeeksMatch(weeks, cycle, d) { assert WeekFits(weeks[id], d); }
  }

  /**
   Exactly when an update survives an old read: writing after others have, on settings and weeks read at
   whatever moments, it leaves the cycle's weeks matching its settings if and only if the settings it leaves
   out are still as it read them and no week of its list was dropped meanwhile. One that needs no regrow keeps
   a match if and only if the settings it sets are still as it read them.
   */
  lemma StaleUpdateMatchesIff(seen: map<Id, Week>, read: Cycle, s: Store, id: Id, change: Change, ids: seq<Id>, entries: seq<Entry>, poisoned: bool)
    requires ProperShape(read.daysPerWeek, read.totalWeeks) && Since(seen, s.weeks) && ProperChange(change)
    requires id in s.cycles && ProperShape(s.cycles[id].daysPerWeek, s.cycles[id].totalWeeks)
    requires NeedsRegrow(read, change) || WeeksMatch(s.weeks, id, s.cycles[id])
    requires NeedsRegrow(read, change) ==> BuiltFrom(seen, id, read, change, s.weeks, ids, entries)
    ensures NeedsRegrow(read, change) ==> entries != []
    ensures var t := Written(s, id, change, read, entries, poisoned);
            id in t.cycles
            && (WeeksMatch(t.weeks, id, t.cycles[id]) <==>
                SettingsAsRead(read, s.cycles[id], change)
                && (NeedsRegrow(read, change) ==> forall i | 0 <= i < |entries| :: !Dropped(seen, s.weeks, id, entries, i)))
  {
    var c := Revised(s.cycles[id], change);
    if NeedsRegrow(read, change) {
      var dropped := set i: nat | i < |entries| && Dropped(seen, s.weeks, id, entries, i);
      var after := StaleRegrew(seen, s.weeks, id, read, change, ids, entries, poisoned, dropped);
      RegrewMatchesIff(after, id, Revised(read, change), c.(end := entries[|entries| - 1].row.end), entries, dropped);
      assert dropped == {} <==> forall i | 0 <= i < |entries| :: !Dropped(seen, s.weeks, id, entries, i) by {
        if i: nat :| i < |entries| && Dropped(seen, s.weeks, id, entries, i) { assert i in dropped; }
      }
    } else {
      UnregrownMatchesIff(s.weeks, id, s.cycles[id], c);
    }
  }

  // A cycle of one week of five days, and the same after an update to two weeks.
  const First: Week := Week(1, 1, 0, 4, true, false)
  const Second: Week := Week(1, 2, 7, 11, true, false)
  const ToTwoWeeks: Change := Change(None, None, Some(2))
  const ToSixDays: Change := Change(None, Some(6), None)
  const OneWeek: Store := Store(map[1 := Cycle(0, 4, 5, 1, true)], map[1 := First])
  const TwoWeeks: Store := Store(map[1 := Cycle(0, 11, 5, 2, true)], map[1 := First, 10 := Second])

  lemma TwoNewIds(weeks: map<Id, Week>, a: Id, b: Id)
    requires a != b && a !in weeks && b !in weeks
    ensures NewIds(weeks, [a, b], 2)
  {
    var ids := [a, b];
    forall i, j | 0 <= i < j < |ids| ensures ids[i] != ids[j] {
      assert i == 0 && j == 1;
    }
  }

  lemma SecondWeekAdded(c: Cycle, ids: seq<Id>)
    requires c == TwoWeeks.cycles[1] && |ids| == 2 && ids[1] == 10
    ensures Regrown(OneWeek.weeks, TwoWeeks.weeks, 1, 1, c, ids)
  {
    var before, after := OneWeek.weeks, TwoWeeks.weeks;
    forall id | id in before ensures id in after && RowRegrown(before[id], after[id], 1, c) { assert id == 1; }
    forall i | 1 <= i < c.totalWeeks ensures AddedWeek(after, ids[i], 1, c, i + 1) { assert i == 1; }
    forall id | id in after && id !in before ensures exists i | 1 <= i < c.totalWeeks :: id == ids[i] {
      assert id == ids[1];
    }
  }

  // The first of two updates to two weeks, on ids no row has.
  lemma FirstUpdate()
    ensures NewIds(OneWeek.weeks, [90, 10], 2) && Does(OneWeek, Update(1, ToTwoWeeks, false, [90, 10]), TwoWeeks)
  {
    TwoNewIds(OneWeek.weeks, 90, 10);
    FirstDoes([90, 10]);
  }

  lemma FirstDoes(ids: seq<Id>)
    requires |ids| == 2 && ids[1] == 10
    ensures Does(OneWeek, Update(1, ToTwoWeeks, false, ids), TwoWeeks)
  {
    var c := TwoWeeks.cycles[1];
    SecondWeekAdded(c, ids);
    assert UpdatedCycle(OneWeek.cycles[1], ToTwoWeeks) == c;
    assert TwoWeeks.cycles == OneWeek.cycles[1 := c];
  }

  lemma PairMatches(weeks: map<Id, Week>, cycle: Id, a: Id, b: Id, c: Cycle)
    requires weeks.Keys == {a, b} && Live(weeks, a, cycle) && Live(weeks, b, cycle)
    requires weeks[a].number == 1 && weeks[b].number == 2 && WeekFits(weeks[a], c) && WeekFits(weeks[b], c)
    requires ProperShape(c.daysPerWeek, c.totalWeeks) && c.totalWeeks == 2 && c.end == WeekEnd(c, 2)
    ensures WeeksMatch(weeks, cycle, c)
  {
    assert HasWeek(weeks, cycle, 1) && HasWeek(weeks, cycle, 2);
  }

  lemma RowsStay()
    ensures Since(OneWeek.weeks, TwoWeeks.weeks)
  {
  }

  lemma SecondList()
    ensures BuiltFrom(OneWeek.weeks, 1, OneWeek.cycles[1], ToTwoWeeks, TwoWeeks.weeks, [91, 20], [Entry(1, First), Entry(20, Second)])
  {
    var entries, ids, r := [Entry(1, First), Entry(20, Second)], [91, 20], Revised(OneWeek.cycles[1], ToTwoWeeks);
    TwoNewIds(TwoWeeks.weeks, 91, 20);
    forall i | 0 <= i < |entries| ensures Rebuilt(OneWeek.weeks, 1, r, ids, i, entries[i]) {
      if i == 0 { assert entries[i] == Entry(1, First); } else { assert entries[i] == Entry(20, Second); }
    }
  }

  lemma SecondWritten(poisoned: bool) returns (after: map<Id, Week>)
    ensures Replaced(TwoWeeks.weeks, 1, [Entry(1, First), Entry(20, Second)], poisoned) == Some(after)
    ensures 10 in after && after[10].deleted && 20 in after && after[20] == Second
  {
    RowsStay();
    SecondList();
    var entries := [Entry(1, First), Entry(20, Second)];
    StaleRegrowFacts(OneWeek.weeks, TwoWeeks.weeks, 1, OneWeek.cycles[1], ToTwoWeeks, [91, 20], entries, poisoned);
    after := Replaced(TwoWeeks.weeks, 1, entries, poisoned).value;
    assert Live(TwoWeeks.weeks, 10, 1) && !Listed(entries, 10);
    assert EndsAs(after, entries[1], Dropped(OneWeek.weeks, TwoWeeks.weeks, 1, entries, 1));
  }

  /**
   Two updates to two weeks that both read the one-week cycle: the second to write drops the week the first
   one added and stores its own, so losing the race is not a no-op.
   */
  lemma LaterRegrowReplacesEarlier(poisoned: bool)
    ensures Does(OneWeek, Update(1, ToTwoWeeks, false, [90, 10]), TwoWeeks)
    ensures BuiltFrom(OneWeek.weeks, 1, OneWeek.cycles[1], ToTwoWeeks, TwoWeeks.weeks, [91, 20], [Entry(1, First), Entry(20, Second)])
    ensures var t := Written(TwoWeeks, 1, ToTwoWeeks, OneWeek.cycles[1], [Entry(1, First), Entry(20, Second)], poisoned);
            10 in t.weeks && t.weeks[10].deleted && 20 in t.weeks && t.weeks[20] == Second
  {
    FirstUpdate();
    SecondList();
    var after := SecondWritten(poisoned);
  }

  lemma SixDayList()
    ensures BuiltFrom(OneWeek.weeks, 1, OneWeek.cycles[1], ToSixDays, TwoWeeks.weeks, [91], [Entry(1, First.(end := 5))])
  {
    var entries, r := [Entry(1, First.(end := 5))], Revised(OneWeek.cycles[1], ToSixDays);
    assert Rebuilt(OneWeek.weeks, 1, r, [91], 0, entries[0]);
  }

  // A list of one week leaves no second one.
  lemma ShortListLeavesOne(seen: map<Id, Week>, now: map<Id, Week>, cycle: Id, read: Cycle, change: Change, ids: seq<Id>, entries: seq<Entry>, poisoned: bool)
      returns (after: map<Id, Week>)
    requires Since(seen, now) && BuiltFrom(seen, cycle, read, change, now, ids, entries) && |entries| == 1
    ensures Replaced(now, cycle, entries, poisoned) == Some(after) && !HasWeek(after, cycle, 2)
  {
    StaleRegrowFacts(seen, now, cycle, read, change, ids, entries, poisoned);
    after := Replaced(now, cycle, entries, poisoned).value;
    EntryOfRow(seen, now, cycle, read, change, ids, entries, 0);
    forall id | Live(after, id, cycle) ensures after[id].number != 2 {
      assert Listed(entries, id) && EndsAs(after, entries[0], Dropped(seen, now, cycle, entries, 0));
    }
  }

  /** And one that only changes the days per week, from the same old read, leaves a two-week cycle without its second week. */
  lemma StaleUpdateLosesWeek(poisoned: bool)
    ensures Does(OneWeek, Update(1, ToTwoWeeks, false, [90, 10]), TwoWeeks) && WeeksMatch(TwoWeeks.weeks, 1, TwoWeeks.cycles[1])
    ensures BuiltFrom(OneWeek.weeks, 1, OneWeek.cycles[1], ToSixDays, TwoWeeks.weeks, [91], [Entry(1, First.(end := 5))])
    ensures var t := Written(TwoWeeks, 1, ToSixDays, OneWeek.cycles[1], [Entry(1, First.(end := 5))], poisoned);
            1 in t.cycles && t.cycles[1].totalWeeks == 2 && !HasWeek(t.weeks, 1, 2) && !WeeksMatch(t.weeks, 1, t.cycles[1])
  {
    FirstUpdate();
    PairMatches(TwoWeeks.weeks, 1, 1, 10, TwoWeeks.cycles[1]);
    SixDayList();
    RowsStay();
    var after := ShortListLeavesOne(OneWeek.weeks, TwoWeeks.weeks, 1, OneWeek.cycles[1], ToSixDays, [91], [Entry(1, First.(end := 5))], poisoned);
  }
}
