/**
 Nested tenant transactions: an operation joins the ambient transaction only when that one belongs to
 exactly the schema it asks for, and otherwise runs in a transaction of its own.
 */
module TenantTransactions {
  import opened Wrappers

  predicate Letter(c: char) { 'a' <= c <= 'z' || 'A' <= c <= 'Z' || c == '_' }

  predicate ValidSchema(name: string) {
    name != [] && Letter(name[0]) && forall i | 1 <= i < |name| :: Letter(name[i]) || '0' <= name[i] <= '9' || name[i] == '-'
  }

  /**
   An operation as what it does in order: it writes rows, throws, or makes nested calls, naming a schema
   or (None) taking the request's tenant, whose errors it may catch.
   */
  datatype Action = Write(data: Id) | Throw | Call(schema: Option<string>, body: Body, catches: bool)

  datatype Body = Done | Then(first: Action, rest: Body)

  // A row remembers which schema the code that wrote it had asked for.
  datatype Row = Row(asked: string, data: Id)

  // An open or committed transaction and the search path set on its connection.
  datatype Tx = Tx(id: nat, path: string, rows: seq<Row>)

  datatype World = World(nextTx: nat, committed: seq<Tx>)

  datatype Ran = Ran(tx: Tx, world: World, ok: bool)

  datatype Called = Called(ambient: Option<Tx>, world: World, ok: bool)

  // The schema a call resolves to; None is the error of a context without a tenant, or of a bad name.
  function Target(schema: Option<string>, tenant: Option<string>): (target: Option<string>)
    ensures target.Some? ==> ValidSchema(target.value)
  {
    var wanted := if schema.Some? then schema else tenant;
    if wanted.Some? && ValidSchema(wanted.value) then wanted else None
  }

  function RunBody(body: Body, asked: string, tenant: Option<string>, tx: Tx, world: World): Ran
    decreases body, 0
  {
    match body
    case Done => Ran(tx, world, true)
    case Then(Write(data), rest) => RunBody(rest, asked, tenant, tx.(rows := tx.rows + [Row(asked, data)]), world)
    case Then(Throw, rest) => Ran(tx, world, false)
    case Then(Call(schema, inner, catches), rest) =>
      var called := RunCall(schema, inner, tenant, Some(tx), world);
      if called.ok || catches then RunBody(rest, asked, tenant, called.ambient.value, called.world)
      else Ran(called.ambient.value, called.world, false)
  }

  /** One call, with the ambient transaction of its context, if any. */
  function RunCall(schema: Option<string>, body: Body, tenant: Option<string>, ambient: Option<Tx>, world: World): (called: Called)
    ensures called.ambient.Some? <==> ambient.Some?
    decreases body, 1
  {
    var target := Target(schema, tenant);
    if target.None? then Called(ambient, world, false)
    else if ambient.Some? && ambient.value.path == target.value then
      var ran := RunBody(body, target.value, tenant, ambient.value, world);
      Called(Some(ran.tx), ran.world, ran.ok)
    else
      var ran := RunBody(body, target.value, tenant, Tx(world.nextTx, target.value, []), world.(nextTx := world.nextTx + 1));
      Called(ambient, if ran.ok then ran.world.(committed := ran.world.committed + [ran.tx]) else ran.world, ran.ok)
  }

  /**
   A call that names no schema is a call on the request's tenant, and an error that runs nothing in a context
   without one. So is a name that could end the quoted identifier it is put in.
   */
  lemma CallsWithoutSchema(body: Body, tenant: Option<string>, ambient: Option<Tx>, world: World, schema: string)
    ensures tenant.Some? ==> RunCall(None, body, tenant, ambient, world) == RunCall(tenant, body, tenant, ambient, world)
    ensures tenant.None? ==> RunCall(None, body, tenant, ambient, world) == Called(ambient, world, false)
    ensures schema == "" || (exists i :: 0 <= i < |schema| && schema[i] in ['"', ';', '\'', ' ', '.']) ==>
              RunCall(Some(schema), body, tenant, ambient, world) == Called(ambient, world, false)
  {
  }

  /** The schema of every company, named after its uuid, is accepted, and is the one the call runs on. */
  lemma CompanySchemasAreAccepted(uuid: string, tenant: Option<string>)
    requires forall i | 0 <= i < |uuid| :: 'a' <= uuid[i] <= 'f' || '0' <= uuid[i] <= '9' || uuid[i] == '-'
    ensures Target(Some("tenant_" + uuid), tenant) == Some("tenant_" + uuid)
  {
    var name := "tenant_" + uuid;
    forall i | 1 <= i < |name| ensures Letter(name[i]) || '0' <= name[i] <= '9' || name[i] == '-' {
      if i >= 7 { assert name[i] == uuid[i - 7]; }
    }
  }

  // ---------------------------------------------------------------- isolation

  ghost predicate OnOwnPath(tx: Tx) { forall k | 0 <= k < |tx.rows| :: tx.rows[k].asked == tx.path }

  ghost predicate Isolated(world: World) { forall k | 0 <= k < |world.committed| :: OnOwnPath(world.committed[k]) }

  /** No operation ever writes on a transaction whose search path is not the schema it asked for. */
  lemma {:induction false} RunsOnAskedSchema(body: Body, asked: string, tenant: Option<string>, tx: Tx, world: World)
    requires tx.path == asked && OnOwnPath(tx) && Isolated(world)
    ensures var ran := RunBody(body, asked, tenant, tx, world); ran.tx.path == asked && ran.tx.id == tx.id && OnOwnPath(ran.tx) && Isolated(ran.world)
    decreases body, 0
  {
    match body
    case Done =>
    case Then(Write(data), rest) => RunsOnAskedSchema(rest, asked, tenant, tx.(rows := tx.rows + [Row(asked, data)]), world);
    case Then(Throw, rest) =>
    case Then(Call(schema, inner, catches), rest) =>
      CallsStayIsolated(schema, inner, tenant, Some(tx), world);
      var called := RunCall(schema, inner, tenant, Some(tx), world);
      if called.ok || catches { RunsOnAskedSchema(rest, asked, tenant, called.ambient.value, called.world); }
  }

  lemma {:induction false} CallsStayIsolated(schema: Option<string>, body: Body, tenant: Option<string>, ambient: Option<Tx>, world: World)
    requires ambient.Some? ==> OnOwnPath(ambient.value)
    requires Isolated(world)
    ensures var called := RunCall(schema, body, tenant, ambient, world);
            Isolated(called.world) && (ambient.Some? ==>
              OnOwnPath(called.ambient.value) && called.ambient.value.path == ambient.value.path && called.ambient.value.id == ambient.value.id)
    decreases body, 1
  {
    var target := Target(schema, tenant);
    if target.Some? {
      if ambient.Some? && ambient.value.path == target.value {
        RunsOnAskedSchema(body, target.value, tenant, ambient.value, world);
      } else {
        RunsOnAskedSchema(body, target.value, tenant, Tx(world.nextTx, target.value, []), world.(nextTx := world.nextTx + 1));
      }
    }
  }

  // ---------------------------------------------------------------- the unit of commit

  // What a body asks to be written on its own schema, and whether an error escapes it, transactions aside.
  datatype Wish = Wish(data: seq<Id>, ok: bool)

  function Wishes(body: Body, asked: string, tenant: Option<string>): Wish {
    match body
    case Done => Wish([], true)
    case Then(Write(data), rest) => var w := Wishes(rest, asked, tenant); w.(data := [data] + w.data)
    case Then(Throw, rest) => Wish([], false)
    case Then(Call(schema, inner, catches), rest) =>
      var target := Target(schema, tenant);
      var nested := if target.None? then Wish([], false) else Wishes(inner, target.value, tenant);
      // A call to another schema adds nothing here but its success or failure.
      var own := if target == Some(asked) then nested.data else [];
      if nested.ok || catches then
        var w := Wishes(rest, asked, tenant);
        w.(data := own + w.data)
      else Wish(own, false)
  }

  function Tag(asked: string, data: seq<Id>): (rows: seq<Row>)
    ensures |rows| == |data| && forall k | 0 <= k < |data| :: rows[k] == Row(asked, data[k])
  {
    if data == [] then [] else [Row(asked, data[0])] + Tag(asked, data[1..])
  }

  // `after` is `before` with `data`, asked for on its own path, added at its end.
  ghost predicate Wrote(before: Tx, after: Tx, data: seq<Id>) {
    after.id == before.id && after.path == before.path && after.rows == before.rows + Tag(before.path, data)
  }

  lemma TagPlus(asked: string, a: seq<Id>, b: seq<Id>)
    ensures Tag(asked, a + b) == Tag(asked, a) + Tag(asked, b)
  {
  }

  lemma Regroup(x: seq<Row>, y: seq<Row>, z: seq<Row>)
    ensures (x + y) + z == x + (y + z)
  {
  }

  lemma WroteMore(t0: Tx, a: seq<Id>, t1: Tx, b: seq<Id>, t2: Tx)
    requires Wrote(t0, t1, a) && Wrote(t1, t2, b)
    ensures Wrote(t0, t2, a + b)
  {
    TagPlus(t0.path, a, b);
    Regroup(t0.rows, Tag(t0.path, a), Tag(t0.path, b));
  }

  // only transactions opened since have been committed since.
  ghost predicate Grows(before: World, after: World) {
    && before.nextTx <= after.nextTx
    && before.committed <= after.committed
    && forall k | |before.committed| <= k < |after.committed| :: before.nextTx <= after.committed[k].id < after.nextTx
  }

  lemma GrowsOn(a: World, b: World, c: World)
    requires Grows(a, b) && Grows(b, c)
    ensures Grows(a, c)
  {
  }

  lemma {:induction false} BodyGrows(body: Body, asked: string, tenant: Option<string>, tx: Tx, world: World)
    ensures var ran := RunBody(body, asked, tenant, tx, world); Grows(world, ran.world) && ran.tx.id == tx.id
    decreases body, 0
  {
    match body
    case Done =>
    case Then(Write(data), rest) => BodyGrows(rest, asked, tenant, tx.(rows := tx.rows + [Row(asked, data)]), world);
    case Then(Throw, rest) =>
    case Then(Call(schema, inner, catches), rest) =>
      CallGrows(schema, inner, tenant, Some(tx), world);
      var called := RunCall(schema, inner, tenant, Some(tx), world);
      if called.ok || catches {
        BodyGrows(rest, asked, tenant, called.ambient.value, called.world);
        GrowsOn(world, called.world, RunBody(rest, asked, tenant, called.ambient.value, called.world).world);
      }
  }

  lemma {:induction false} CallGrows(schema: Option<string>, body: Body, tenant: Option<string>, ambient: Option<Tx>, world: World)
    ensures var called := RunCall(schema, body, tenant, ambient, world);
            Grows(world, called.world) && (ambient.Some? ==> called.ambient.value.id == ambient.value.id)
    decreases body, 1
  {
    var target := Target(schema, tenant);
    if target.Some? {
      if ambient.Some? && ambient.value.path == target.value {
        BodyGrows(body, target.value, tenant, ambient.value, world);
      } else {
        BodyGrows(body, target.value, tenant, Tx(world.nextTx, target.value, []), world.(nextTx := world.nextTx + 1));
      }
    }
  }

  lemma {:induction false} BodyWrites(body: Body, asked: string, tenant: Option<string>, tx: Tx, world: World)
    requires tx.path == asked
    ensures var ran := RunBody(body, asked, tenant, tx, world);
            ran.ok == Wishes(body, asked, tenant).ok && Wrote(tx, ran.tx, Wishes(body, asked, tenant).data)
    decreases body, 0
  {
    match body
    case Done =>
    case Then(Write(data), rest) =>
      var written := tx.(rows := tx.rows + [Row(asked, data)]);
      BodyWrites(rest, asked, tenant, written, world);
      WroteMore(tx, [data], written, Wishes(rest, asked, tenant).data, RunBody(rest, asked, tenant, written, world).tx);
    case Then(Throw, rest) =>
    case Then(Call(schema, inner, catches), rest) =>
      CallWrites(schema, inner, asked, tenant, tx, world);
      var called := RunCall(schema, inner, tenant, Some(tx), world);
      if called.ok || catches {
        var joined := called.ambient.value;
        BodyWrites(rest, asked, tenant, joined, called.world);
        WroteMore(tx, OwnPart(schema, inner, asked, tenant), joined, Wishes(rest, asked, tenant).data,
                  RunBody(rest, asked, tenant, joined, called.world).tx);
      }
  }

  function OwnPart(schema: Option<string>, body: Body, asked: string, tenant: Option<string>): seq<Id> {
    if Target(schema, tenant) == Some(asked) then Wishes(body, asked, tenant).data else []
  }

  // A nested call, as the body around it sees it.
  lemma {:induction false} CallWrites(schema: Option<string>, body: Body, asked: string, tenant: Option<string>, tx: Tx, world: World)
    requires tx.path == asked
    ensures var called := RunCall(schema, body, tenant, Some(tx), world);
            && Wrote(tx, called.ambient.value, OwnPart(schema, body, asked, tenant))
            && called.ok == (Target(schema, tenant).Some? && Wishes(body, Target(schema, tenant).value, tenant).ok)
    decreases body, 1
  {
    var target := Target(schema, tenant);
    if target == Some(asked) {
      BodyWrites(body, asked, tenant, tx, world);
    } else if target.Some? {
      BodyWrites(body, target.value, tenant, Tx(world.nextTx, target.value, []), world.(nextTx := world.nextTx + 1));
    }
  }

  ghost predicate CommittedIn(id: nat, world: World) { exists k | 0 <= k < |world.committed| :: world.committed[k].id == id }

  lemma NotYetCommitted(before: World, after: World)
    requires Grows(before.(nextTx := before.nextTx + 1), after)
    requires forall k | 0 <= k < |before.committed| :: before.committed[k].id < before.nextTx
    ensures !CommittedIn(before.nextTx, after)
  {
    forall k | 0 <= k < |after.committed| ensures after.committed[k].id != before.nextTx {
      if k < |before.committed| { assert after.committed[k] == before.committed[k]; }
    }
  }

  /**
   One unit: a call that opens a transaction commits, last and in one transaction on the schema it asked
   for, exactly the rows its unbroken same-schema nest wrote, in order, if no error escapes it; and
   nothing at all of that nest if one does. The ambient transaction of another schema is not touched.
   */
  lemma CommitsAsOneUnit(schema: Option<string>, body: Body, tenant: Option<string>, ambient: Option<Tx>, world: World, target: string)
    requires Target(schema, tenant) == Some(target)
    requires ambient.Some? ==> ambient.value.path != target
    requires forall k | 0 <= k < |world.committed| :: world.committed[k].id < world.nextTx
    ensures var called := RunCall(schema, body, tenant, ambient, world);
            var wish := Wishes(body, target, tenant);
            && called.ambient == ambient
            && called.ok == wish.ok
            && Grows(world, called.world)
            && (CommittedIn(world.nextTx, called.world) <==> wish.ok)
            && (wish.ok ==> EndsWith(called.world.committed, Tx(world.nextTx, target, Tag(target, wish.data))))
  {
    CallGrows(schema, body, tenant, ambient, world);
    var begun := Tx(world.nextTx, target, []);
    var started := world.(nextTx := world.nextTx + 1);
    BodyGrows(body, target, tenant, begun, started);
    BodyWrites(body, target, tenant, begun, started);
    var ran := RunBody(body, target, tenant, begun, started);
    NotYetCommitted(world, ran.world);
    var called := RunCall(schema, body, tenant, ambient, world);
    if called.ok { assert called.world.committed[|called.world.committed| - 1].id == world.nextTx; }
  }

  ghost predicate EndsWith(committed: seq<Tx>, tx: Tx) { committed != [] && committed[|committed| - 1] == tx }

  // ---------------------------------------------------------------- joining is inlining

  function Append(a: Body, b: Body): Body {
    match a case Done => b case Then(first, rest) => Then(first, Append(rest, b))
  }

  // The body with every uncaught call to its own schema replaced by what that call does.
  function Inline(body: Body, asked: string, tenant: Option<string>): Body {
    match body
    case Done => Done
    case Then(Call(schema, inner, catches), rest) =>
      if Target(schema, tenant) == Some(asked) && !catches then Append(Inline(inner, asked, tenant), Inline(rest, asked, tenant))
      else Then(body.first, Inline(rest, asked, tenant))
    case Then(_, rest) => Then(body.first, Inline(rest, asked, tenant))
  }

  lemma {:induction false} AppendRuns(a: Body, b: Body, asked: string, tenant: Option<string>, tx: Tx, world: World)
    ensures var ran := RunBody(a, asked, tenant, tx, world);
            RunBody(Append(a, b), asked, tenant, tx, world) == if ran.ok then RunBody(b, asked, tenant, ran.tx, ran.world) else ran
    decreases a
  {
    match a
    case Done =>
    case Then(Write(data), rest) => AppendRuns(rest, b, asked, tenant, tx.(rows := tx.rows + [Row(asked, data)]), world);
    case Then(Throw, rest) =>
    case Then(Call(schema, inner, catches), rest) =>
      var called := RunCall(schema, inner, tenant, Some(tx), world);
      if called.ok || catches { AppendRuns(rest, b, asked, tenant, called.ambient.value, called.world); }
  }

  /** A nest of calls to one schema means the same as the flat operation: same rows, same commits, same errors. */
  lemma {:induction false} JoiningIsInlining(body: Body, asked: string, tenant: Option<string>, tx: Tx, world: World)
    requires tx.path == asked
    ensures RunBody(Inline(body, asked, tenant), asked, tenant, tx, world) == RunBody(body, asked, tenant, tx, world)
    decreases body
  {
    match body
    case Done =>
    case Then(Write(data), rest) => JoiningIsInlining(rest, asked, tenant, tx.(rows := tx.rows + [Row(asked, data)]), world);
    case Then(Throw, rest) =>
    case Then(Call(schema, inner, catches), rest) =>
      var called := RunCall(schema, inner, tenant, Some(tx), world);
      CallWrites(schema, inner, asked, tenant, tx, world);
      if called.ok || catches { JoiningIsInlining(rest, asked, tenant, called.ambient.value, called.world); }
      if Target(schema, tenant) == Some(asked) && !catches {
        JoiningIsInlining(inner, asked, tenant, tx, world);
        AppendRuns(Inline(inner, asked, tenant), Inline(rest, asked, tenant), asked, tenant, tx, world);
      }
  }

  // ---------------------------------------------------------------- where the unit ends

  /**
   Joining gives no savepoint: when an operation catches the error of a call to its own schema, what that
   call had written stays in the transaction and is committed with the rest.
   */
  lemma CaughtErrorKeepsPartialWrites(s: string, tenant: Option<string>, data: Id, world: World)
    requires ValidSchema(s)
    ensures var body := Then(Call(Some(s), Then(Write(data), Then(Throw, Done)), true), Done);
            RunCall(Some(s), body, tenant, None, world)
              == Called(None, World(world.nextTx + 1, world.committed + [Tx(world.nextTx, s, [Row(s, data)])]), true)
  {
    var inner := Then(Write(data), Then(Throw, Done));
    var begun := Tx(world.nextTx, s, []);
    var started := world.(nextTx := world.nextTx + 1);
    assert RunBody(inner, s, tenant, begun, started) == Ran(Tx(world.nextTx, s, [Row(s, data)]), started, false);
    assert RunCall(Some(s), inner, tenant, Some(begun), started).ambient.value.rows == [Row(s, data)];
    var body := Then(Call(Some(s), inner, true), Done);
    assert RunBody(body, s, tenant, begun, started) == Ran(Tx(world.nextTx, s, [Row(s, data)]), started, true);
  }

  // A body of one write and then one call, and what it does when the call succeeds.
  lemma WriteThenCall(s: string, tenant: Option<string>, data: Id, schema: string, inner: Body, last: Body, tx: Tx, world: World, called: Called)
    requires tx.path == s && called == RunCall(Some(schema), inner, tenant, Some(tx.(rows := tx.rows + [Row(s, data)])), world) && called.ok
    ensures RunBody(Then(Write(data), Then(Call(Some(schema), inner, false), last)), s, tenant, tx, world)
         == RunBody(last, s, tenant, called.ambient.value, called.world)
  {
  }

  /**
   Another schema breaks the nest: from a through b back to a a third transaction is opened, and it and
   b's stay committed when the first one fails.
   */
  lemma BrokenNestCommitsOnItsOwn(a: string, b: string, tenant: Option<string>, x: Id, y: Id, z: Id, world: World)
    requires ValidSchema(a) && ValidSchema(b) && a != b
    ensures var back := Then(Write(y), Then(Call(Some(a), Then(Write(z), Done), false), Done));
            var body := Then(Write(x), Then(Call(Some(b), back, false), Then(Throw, Done)));
            RunCall(Some(a), body, tenant, None, world)
              == Called(None, World(world.nextTx + 3, world.committed + [Tx(world.nextTx + 2, a, [Row(a, z)]), Tx(world.nextTx + 1, b, [Row(b, y)])]), false)
  {
    var n := world.nextTx;
    var inner := Then(Write(z), Done);
    var back := Then(Write(y), Then(Call(Some(a), inner, false), Done));
    var c3 := [Tx(n + 2, a, [Row(a, z)])];
    var c2 := [Tx(n + 1, b, [Row(b, y)])];
    var w2 := World(n + 2, world.committed);
    var w3 := World(n + 3, world.committed + c3);
    assert RunBody(inner, a, tenant, Tx(n + 2, a, []), w2.(nextTx := n + 3)).tx.rows == [Row(a, z)];
    var call3 := Called(Some(c2[0]), w3, true);
    assert RunCall(Some(a), inner, tenant, Some(c2[0]), w2) == call3;
    assert (Tx(n + 1, b, []).rows + [Row(b, y)]) == [Row(b, y)];
    WriteThenCall(b, tenant, y, a, inner, Done, Tx(n + 1, b, []), w2, call3);
    var t1 := Tx(n, a, [Row(a, x)]);
    var call2 := Called(Some(t1), World(n + 3, w3.committed + c2), true);
    assert RunCall(Some(b), back, tenant, Some(t1), world.(nextTx := n + 1)) == call2;
    assert (Tx(n, a, []).rows + [Row(a, x)]) == [Row(a, x)];
    WriteThenCall(a, tenant, x, b, back, Then(Throw, Done), Tx(n, a, []), world.(nextTx := n + 1), call2);
    assert w3.committed + c2 == world.committed + [c3[0], c2[0]];
  }
}
