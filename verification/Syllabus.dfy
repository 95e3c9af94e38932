/**
 Syllabus distributions: the cells of a syllabus, the weekly cap on their questions, and cloning one
 syllabus onto another.
 */
module Syllabus {
  import opened Wrappers

  const WEEKLY_QUESTION_LIMIT := 100

  datatype Cell = Cell(id: Id, syllabus: Id, template: Option<Id>, week: int, topic: Id, subtopic: Id, count: int)

  datatype Header = Header(id: Id, cycle: Id, course: Id, template: Option<Id>, active: bool)

  // The tenant's tables; `nextId` stands for the uuids still to be drawn.
  datatype Db = Db(headers: seq<Header>, cells: seq<Cell>, nextId: Id)

  datatype Error = NotFound | WeekFull | NoTarget | NoSource | MissingTemplates | DuplicateCell | EmptySource | DuplicateSyllabus

  // ---------------------------------------------------------------- sums and look-ups

  function Share(c: Cell, syllabus: Id, week: int, except: Option<Id>): int {
    if c.syllabus == syllabus && c.week == week && Some(c.id) != except then c.count else 0
  }

  function WeekSum(cells: seq<Cell>, syllabus: Id, week: int, except: Option<Id>): int {
    if cells == [] then 0
    else WeekSum(cells[..|cells| - 1], syllabus, week, except) + Share(cells[|cells| - 1], syllabus, week, except)
  }

  // What the unique index compares; two missing templates are equal to it.
  predicate SameCell(a: Cell, b: Cell) {
    a.syllabus == b.syllabus && a.template == b.template && a.week == b.week && a.topic == b.topic && a.subtopic == b.subtopic
  }

  function FindSame(cells: seq<Cell>, c: Cell): (found: Option<nat>)
    ensures found.Some? ==> found.value < |cells| && SameCell(cells[found.value], c)
    ensures found.None? ==> forall i | 0 <= i < |cells| :: !SameCell(cells[i], c)
  {
    if cells == [] then None else
    var n := |cells| - 1;
    if SameCell(cells[n], c) then Some(n) else FindSame(cells[..n], c)
  }

  // Scoped by the owning syllabus.
  function FindCell(cells: seq<Cell>, id: Id, syllabus: Id): (found: Option<nat>)
    ensures found.Some? ==> found.value < |cells| && cells[found.value].id == id && cells[found.value].syllabus == syllabus
    ensures found.None? ==> forall i | 0 <= i < |cells| :: !(cells[i].id == id && cells[i].syllabus == syllabus)
  {
    if cells == [] then None else
    var n := |cells| - 1;
    if cells[n].id == id && cells[n].syllabus == syllabus then Some(n) else FindCell(cells[..n], id, syllabus)
  }

  // ---------------------------------------------------------------- one cell at a time

  function Insert(db: Db, c: Cell): Db {
    match FindSame(db.cells, c)
    case Some(k) => db.(cells := db.cells[k := db.cells[k].(count := c.count)])
    case None => db.(cells := db.cells + [c.(id := db.nextId)], nextId := db.nextId + 1)
  }

  // `poisoned`: once the insert has met the unique index, the database refuses the transaction's further
  // statements, so the recovery cannot overwrite and the add fails as a whole. The insert runs inside
  // runInTenant's transaction without a savepoint, so on Postgres it is true; `false` is what the recovery
  // was written for. Everything below holds for both.
  function Add(db: Db, c: Cell, poisoned: bool): Result<Db, Error> {
    if WeekSum(db.cells, c.syllabus, c.week, None) + c.count > WEEKLY_QUESTION_LIMIT then Failure(WeekFull)
    else if poisoned && FindSame(db.cells, c).Some? then Failure(DuplicateCell)
    else Success(Insert(db, c))
  }

  function Update(db: Db, id: Id, syllabus: Id, count: int): Result<Db, Error> {
    match FindCell(db.cells, id, syllabus)
    case None => Failure(NotFound)
    case Some(k) =>
      if WeekSum(db.cells, syllabus, db.cells[k].week, Some(id)) + count > WEEKLY_QUESTION_LIMIT then Failure(WeekFull)
      else Success(db.(cells := db.cells[k := db.cells[k].(count := count)]))
  }

  function Delete(db: Db, id: Id, syllabus: Id): Result<Db, Error> {
    match FindCell(db.cells, id, syllabus)
    case None => Failure(NotFound)
    case Some(k) => Success(db.(cells := db.cells[..k] + db.cells[k + 1..]))
  }

  // ---------------------------------------------------------------- the invariant

  ghost predicate DistinctCells(cells: seq<Cell>) {
    forall i, j | 0 <= i < j < |cells| :: cells[i].id != cells[j].id && !SameCell(cells[i], cells[j])
  }

  ghost predicate CellsOk(cells: seq<Cell>, nextId: Id) {
    forall i | 0 <= i < |cells| :: cells[i].id < nextId && 1 <= cells[i].count
  }

  ghost predicate Capped(cells: seq<Cell>) {
    forall syllabus, week :: WeekSum(cells, syllabus, week, None) <= WEEKLY_QUESTION_LIMIT
  }

  // The partial unique index: one active syllabus per cycle and course.
  predicate SameActive(a: Header, b: Header) { a.active && b.active && a.cycle == b.cycle && a.course == b.course }

  ghost predicate HeadersOk(headers: seq<Header>, nextId: Id) {
    && (forall i | 0 <= i < |headers| :: headers[i].id < nextId)
    && forall i, j | 0 <= i < j < |headers| :: headers[i].id != headers[j].id && !SameActive(headers[i], headers[j])
  }

  /** Every week of every syllabus within the limit, no cell stored twice. */
  ghost predicate Inv(db: Db) {
    DistinctCells(db.cells) && CellsOk(db.cells, db.nextId) && Capped(db.cells) && HeadersOk(db.headers, db.nextId)
  }

  lemma {:induction false} SumIsNatural(cells: seq<Cell>, nextId: Id, syllabus: Id, week: int, except: Option<Id>)
    requires CellsOk(cells, nextId)
    ensures WeekSum(cells, syllabus, week, except) >= 0
  {
    if cells != [] { SumIsNatural(cells[..|cells| - 1], nextId, syllabus, week, except); }
  }

  lemma {:induction false} SumOfPlus(a: seq<Cell>, b: seq<Cell>, syllabus: Id, week: int, except: Option<Id>)
    ensures WeekSum(a + b, syllabus, week, except) == WeekSum(a, syllabus, week, except) + WeekSum(b, syllabus, week, except)
  {
    if b == [] {
      assert a + b == a;
    } else {
      assert (a + b)[..|a + b| - 1] == a + b[..|b| - 1];
      SumOfPlus(a, b[..|b| - 1], syllabus, week, except);
    }
  }

  // The sum that leaves a cell out is the sum of the others.
  lemma {:induction false} SumExcept(cells: seq<Cell>, k: nat, syllabus: Id, week: int)
    requires DistinctCells(cells) && k < |cells|
    ensures WeekSum(cells, syllabus, week, Some(cells[k].id)) == WeekSum(cells[..k] + cells[k + 1..], syllabus, week, None)
  {
    var except := Some(cells[k].id);
    SumOfPlus(cells[..k], cells[k..], syllabus, week, except);
    SumOfPlus([cells[k]], cells[k + 1..], syllabus, week, except);
    SumOfPlus(cells[..k], cells[k + 1..], syllabus, week, None);
    assert cells == cells[..k] + cells[k..] && cells[k..] == [cells[k]] + cells[k + 1..];
    assert [cells[k]][..0] == [];
    NothingExcepted(cells[..k], syllabus, week, cells[k].id);
    NothingExcepted(cells[k + 1..], syllabus, week, cells[k].id);
  }

  lemma {:induction false} NothingExcepted(cells: seq<Cell>, syllabus: Id, week: int, id: Id)
    requires forall i | 0 <= i < |cells| :: cells[i].id != id
    ensures WeekSum(cells, syllabus, week, Some(id)) == WeekSum(cells, syllabus, week, None)
  {
    if cells != [] { NothingExcepted(cells[..|cells| - 1], syllabus, week, id); }
  }

  lemma SumOfReplace(cells: seq<Cell>, k: nat, c: Cell, syllabus: Id, week: int)
    requires k < |cells|
    ensures WeekSum(cells[k := c], syllabus, week, None)
         == WeekSum(cells[..k] + cells[k + 1..], syllabus, week, None) + Share(c, syllabus, week, None)
  {
    assert cells[k := c] == cells[..k] + ([c] + cells[k + 1..]);
    SumOfPlus(cells[..k], [c] + cells[k + 1..], syllabus, week, None);
    SumOfPlus([c], cells[k + 1..], syllabus, week, None);
    SumOfPlus(cells[..k], cells[k + 1..], syllabus, week, None);
    assert [c][..0] == [];
  }

  lemma SumOfSplit(cells: seq<Cell>, k: nat, syllabus: Id, week: int)
    requires k < |cells|
    ensures WeekSum(cells, syllabus, week, None)
         == WeekSum(cells[..k] + cells[k + 1..], syllabus, week, None) + Share(cells[k], syllabus, week, None)
  {
    SumOfReplace(cells, k, cells[k], syllabus, week);
    assert cells[k := cells[k]] == cells;
  }

  // Recounting cell k keeps the cap when its own week still fits.
  lemma RecountKeepsCap(cells: seq<Cell>, nextId: Id, k: nat, count: int)
    requires DistinctCells(cells) && CellsOk(cells, nextId) && Capped(cells) && k < |cells|
    requires WeekSum(cells, cells[k].syllabus, cells[k].week, Some(cells[k].id)) + count <= WEEKLY_QUESTION_LIMIT
    ensures Capped(cells[k := cells[k].(count := count)])
  {
    var c := cells[k].(count := count);
    var after := cells[k := c];
    forall syllabus, week ensures WeekSum(after, syllabus, week, None) <= WEEKLY_QUESTION_LIMIT {
      SumExcept(cells, k, syllabus, week);
      SumOfReplace(cells, k, c, syllabus, week);
      SumOfSplit(cells, k, syllabus, week);
      assert WeekSum(cells, syllabus, week, None) <= WEEKLY_QUESTION_LIMIT;
    }
  }

  lemma AddKeepsInv(db: Db, c: Cell, poisoned: bool)
    requires Inv(db) && 1 <= c.count && Add(db, c, poisoned).Success?
    ensures Inv(Add(db, c, poisoned).value)
  {
    match FindSame(db.cells, c)
    case Some(k) =>
      SumExcept(db.cells, k, c.syllabus, c.week);
      SumOfSplit(db.cells, k, c.syllabus, c.week);
      RecountKeepsCap(db.cells, db.nextId, k, c.count);
    case None =>
      var added := c.(id := db.nextId);
      var after := db.cells + [added];
      forall syllabus, week ensures WeekSum(after, syllabus, week, None) <= WEEKLY_QUESTION_LIMIT {
        SumOfPlus(db.cells, [added], syllabus, week, None);
        assert [added][..0] == [];
        assert WeekSum(db.cells, syllabus, week, None) <= WEEKLY_QUESTION_LIMIT;
      }
  }

  lemma UpdateKeepsInv(db: Db, id: Id, syllabus: Id, count: int)
    requires Inv(db) && 1 <= count && Update(db, id, syllabus, count).Success?
    ensures Inv(Update(db, id, syllabus, count).value)
  {
    var k := FindCell(db.cells, id, syllabus).value;
    RecountKeepsCap(db.cells, db.nextId, k, count);
  }

  lemma DeleteKeepsInv(db: Db, id: Id, syllabus: Id)
    requires Inv(db) && Delete(db, id, syllabus).Success?
    ensures Inv(Delete(db, id, syllabus).value)
  {
    var k := FindCell(db.cells, id, syllabus).value;
    var after := db.cells[..k] + db.cells[k + 1..];
    forall s, week ensures WeekSum(after, s, week, None) <= WEEKLY_QUESTION_LIMIT {
      SumOfSplit(db.cells, k, s, week);
      assert WeekSum(db.cells, s, week, None) <= WEEKLY_QUESTION_LIMIT;
    }
  }

  /**
   Last write wins: adding to an occupied cell stores no second one; the row keeps its id and takes
   the new count, and every other row stays as it is. It takes a transaction that survives the violation.
   */
  lemma AddOverwrites(db: Db, c: Cell, poisoned: bool, k: nat)
    requires Inv(db) && k < |db.cells| && SameCell(db.cells[k], c) && Add(db, c, poisoned).Success?
    ensures !poisoned
    ensures var cells := Add(db, c, poisoned).value.cells;
            |cells| == |db.cells| && cells[k] == db.cells[k].(count := c.count) && forall i | 0 <= i < |cells| && i != k :: cells[i] == db.cells[i]
  {
    assert FindSame(db.cells, c).value == k;
  }

  /** Adding to a free cell stores it as asked, under a fresh id, and its count is what its week gains; nothing else changes. */
  lemma AddInserts(db: Db, c: Cell, poisoned: bool, syllabus: Id, week: int)
    requires Inv(db) && Add(db, c, poisoned).Success? && forall i | 0 <= i < |db.cells| :: !SameCell(db.cells[i], c)
    ensures var after := Add(db, c, poisoned).value;
            && after.headers == db.headers
            && after.cells == db.cells + [Cell(db.nextId, c.syllabus, c.template, c.week, c.topic, c.subtopic, c.count)]
            && WeekSum(after.cells, syllabus, week, None)
               == WeekSum(db.cells, syllabus, week, None) + if c.syllabus == syllabus && c.week == week then c.count else 0
  {
    assert [c.(id := db.nextId)][..0] == [];
    SumOfPlus(db.cells, [c.(id := db.nextId)], syllabus, week, None);
  }

  /** An update gives its own cell the new count and its week the difference; a delete takes the cell and its count away. */
  lemma EditsMoveSums(db: Db, k: nat, count: int, week: int)
    requires Inv(db) && k < |db.cells|
    ensures var c := db.cells[k];
            && Update(db, c.id, c.syllabus, count) != Failure(NotFound)
            && (Update(db, c.id, c.syllabus, count).Success? ==>
                  var after := Update(db, c.id, c.syllabus, count).value;
                  && after.headers == db.headers && |after.cells| == |db.cells| && after.cells[k] == c.(count := count)
                  && (forall i | 0 <= i < |db.cells| && i != k :: after.cells[i] == db.cells[i])
                  && WeekSum(after.cells, c.syllabus, week, None)
                     == WeekSum(db.cells, c.syllabus, week, None) + if week == c.week then count - c.count else 0)
            && Delete(db, c.id, c.syllabus).Success?
            && var less := Delete(db, c.id, c.syllabus).value;
               && less.headers == db.headers && (forall x :: x in less.cells <==> x in db.cells && x != c)
               && WeekSum(less.cells, c.syllabus, week, None) == WeekSum(db.cells, c.syllabus, week, None) - if week == c.week then c.count else 0
  {
    var c := db.cells[k];
    assert FindCell(db.cells, c.id, c.syllabus) == Some(k);
    SumOfSplit(db.cells, k, c.syllabus, week);
    SumOfReplace(db.cells, k, c.(count := count), c.syllabus, week);
    RestOfCells(db.cells, k);
  }

  lemma RestOfCells(cells: seq<Cell>, k: nat)
    requires DistinctCells(cells) && k < |cells|
    ensures forall x :: x in cells[..k] + cells[k + 1..] <==> x in cells && x != cells[k]
  {
    forall x ensures x in cells[..k] + cells[k + 1..] <==> x in cells && x != cells[k] {
      if x in cells && x != cells[k] {
        var i :| 0 <= i < |cells| && cells[i] == x;
        if i < k { assert cells[..k][i] == x; } else { assert cells[k + 1..][i - k - 1] == x; }
      }
    }
  }

  /**
   The guard counts the cell it is about to overwrite: an add is refused exactly when the week with the
   old cell still in it would pass the limit, so an overwrite that fits can be refused. An update is not.
   */
  lemma WhenOverwritesAreRefused(db: Db, c: Cell, k: nat)
    requires Inv(db) && k < |db.cells| && SameCell(db.cells[k], c) && 1 <= c.count
    ensures Add(db, c, false).Failure? <==> WeekSum(db.cells, c.syllabus, c.week, Some(db.cells[k].id)) + db.cells[k].count + c.count > 100
    ensures Update(db, db.cells[k].id, c.syllabus, c.count).Failure? <==> WeekSum(db.cells, c.syllabus, c.week, Some(db.cells[k].id)) + c.count > 100
  {
    SumExcept(db.cells, k, c.syllabus, c.week);
    SumOfSplit(db.cells, k, c.syllabus, c.week);
    assert FindCell(db.cells, db.cells[k].id, c.syllabus) == Some(k);
  }
}
