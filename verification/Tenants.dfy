/**
 The life of a tenant: the guarded lifecycle transitions with their audit rows, the deletion of
 a tenant's schema, and the migration from pool A to pool B.
 */
module Tenants {
  import opened Common

  type Id = string

  /** The id no tenant has. */
  const ZERO_ID: Id := "00000000-0000-0000-0000-000000000000"

  datatype State = Active | Suspended | WindDown | Deleted

  datatype Pool = A | B

  datatype Tenant = Tenant(state: State, pool: Pool, dsn: string)

  datatype Event = Entered(state: State) | MigratedAToB

  datatype Entry = Entry(tenant: Id, event: Event, actor: string)

  /** The tenants table, the system audit log, and the tenant schemas that exist in either pool. */
  datatype Db = Db(tenants: map<Id, Tenant>, audit: seq<Entry>, schemas: set<(Id, Pool)>)

  /** States a transition may start from. */
  function From(to: State): set<State> {
    match to
    case Active => {}
    case Suspended => {Active}
    case WindDown => {Active, Suspended}
    case Deleted => {Active, Suspended, WindDown}
  }

  function Rank(s: State): nat {
    match s case Active => 0 case Suspended => 1 case WindDown => 2 case Deleted => 3
  }

  function WithState(d: Db, id: Id, s: State): Db
    requires id in d.tenants
  {
    d.(tenants := d.tenants[id := d.tenants[id].(state := s)])
  }

  predicate Admits(d: Db, id: Id, to: State) {
    id in d.tenants && d.tenants[id].state in From(to)
  }

  /** A committed transition: the new state and its audit row. */
  function Entering(d: Db, id: Id, to: State, actor: string): Db
    requires id in d.tenants
  {
    WithState(d, id, to).(audit := d.audit + [Entry(id, Entered(to), actor)])
  }

  function Routed(d: Db, id: Id, pool: Pool, dsn: string): Db
    requires id in d.tenants
  {
    d.(tenants := d.tenants[id := d.tenants[id].(pool := pool, dsn := dsn)])
  }

  predicate Contains(s: string, part: string) {
    exists i :: 0 <= i <= |s| - |part| && s[i..][..|part|] == part
  }

  lemma ContainsIff(s: string, part: string)
    ensures Contains(s, part) <==> exists a, b :: s == a + part + b
  {
    if i :| 0 <= i <= |s| - |part| && s[i..][..|part|] == part {
      assert s == s[..i] + part + s[i + |part|..];
    }
    if a, b :| s == a + part + b {
      assert s[|a|..][..|part|] == part;
    }
  }

  /** The message of a failed drop_graph that stands for "already gone". */
  predicate UndefinedGraph(message: string) {
    Contains(message, "does not exist") && Contains(message, "graph")
  }

  datatype Outcome = Ok | NotFound | NotConfirmed | BadPool | StoreFailed | DropFailed | CommitFailed

  /** What drop_graph answers. */
  datatype DropAnswer = Dropped | Raised(message: string)


  function StateNamed(s: string): Option<State> {
    if s == "active" then Some(Active)
    else if s == "suspended" then Some(Suspended)
    else if s == "wind_down" then Some(WindDown)
    else if s == "deleted" then Some(Deleted)
    else None
  }

  // ---- Row counts ----

  datatype RowCounts =
    | Matched(counts: map<string, int>)
    | Unreachable
    | NoTables
    | CountFailed(table: string)
    | Mismatch(table: string, source: int, target: int)

  /** One table agrees on both sides. */
  predicate Agrees(source: string -> Reply<int>, target: string -> Reply<int>, t: string) {
    source(t).Answer? && source(t) == target(t)
  }

  /** Where the comparison of the tables stops: at the first one that does not agree. */
  ghost predicate StopsAt(tables: seq<string>, source: string -> Reply<int>, target: string -> Reply<int>, k: nat) {
    && k < |tables| && !Agrees(source, target, tables[k])
    && forall j :: 0 <= j < k ==> Agrees(source, target, tables[j])
  }

  ghost predicate FirstTrouble(
      tables: seq<string>, source: string -> Reply<int>, target: string -> Reply<int>, t: string)
  {
    exists k: nat :: StopsAt(tables, source, target, k) && tables[k] == t
  }

  /** What the two databases answer: whether each is reachable, the tables of the source, the counts. */
  datatype Databases = Databases(
    sourceUp: bool, targetUp: bool, tables: Reply<seq<string>>,
    source: string -> Reply<int>, target: string -> Reply<int>)

  /** The counts of every listed source table agree. */
  ghost predicate CountsAgree(d: Databases) {
    && d.sourceUp && d.targetUp && d.tables.Answer? && d.tables.value != []
    && forall t :: t in d.tables.value ==> Agrees(d.source, d.target, t)
  }

  method ValidateRowCounts(dbs: Databases) returns (r: RowCounts)
    ensures r.Unreachable? <==> !dbs.sourceUp || !dbs.targetUp || dbs.tables.Failed?
    ensures r.Matched? <==> CountsAgree(dbs)
    ensures !r.Unreachable? ==>
      var tables := dbs.tables.value;
      && (r.NoTables? <==> tables == [])
      && (r.Matched? ==> forall t :: t in r.counts <==> t in tables)
      && (r.Matched? ==> forall t :: t in r.counts ==> dbs.source(t) == dbs.target(t) == Answer(r.counts[t]))
      && (r.Mismatch? || r.CountFailed? ==> FirstTrouble(tables, dbs.source, dbs.target, r.table))
      && (r.Mismatch? ==> dbs.source(r.table) == Answer(r.source) && dbs.target(r.table) == Answer(r.target))
      && (r.CountFailed? ==> dbs.source(r.table).Failed? || dbs.target(r.table).Failed?)
  {
    if !dbs.sourceUp || !dbs.targetUp || dbs.tables.Failed? {
      return Unreachable;
    }
    var tables := dbs.tables.value;
    if |tables| == 0 {
      return NoTables;
    }
    var counts: map<string, int> := map[];
    for i := 0 to |tables|
      invariant forall j :: 0 <= j < i ==> Agrees(dbs.source, dbs.target, tables[j])
      invariant forall t :: t in counts <==> t in tables[..i]
      invariant forall t :: t in counts ==> dbs.source(t) == dbs.target(t) == Answer(counts[t])
    {
      var t := tables[i];
      var source := dbs.source(t);
      if source.Failed? {
        assert StopsAt(tables, dbs.source, dbs.target, i);
        return CountFailed(t);
      }
      var target := dbs.target(t);
      if target.Failed? {
        assert StopsAt(tables, dbs.source, dbs.target, i);
        return CountFailed(t);
      }
      if source.value != target.value {
        assert StopsAt(tables, dbs.source, dbs.target, i);
        return Mismatch(t, source.value, target.value);
      }
      counts := counts[t := source.value];
    }
    return Matched(counts);
  }

  // ---- The repository ----

  datatype Options = Options(tenant: Id, poolA: string, poolB: string, actor: string)

  predicate PostgresDsn(s: string) {
    "postgres://" <= s || "postgresql://" <= s
  }

  lemma PostgresDsnIff(s: string)
    ensures PostgresDsn(s) <==> exists rest :: s == "postgres://" + rest || s == "postgresql://" + rest
  {
    if "postgres://" <= s {
      assert s == "postgres://" + s[11..];
    }
    if "postgresql://" <= s {
      assert s == "postgresql://" + s[13..];
    }
  }

  predicate ValidOptions(o: Options) {
    o.tenant != ZERO_ID && PostgresDsn(o.poolA) && PostgresDsn(o.poolB)
  }

  /**
   Whether each step of a migration that leaves this process works, and whether a failing restore has
   created the schema before it failed.
   */
  datatype World = World(
    suspend: nat -> bool, dump: bool, restore: bool, partial: bool, databases: Databases,
    route: bool, resume: bool, audit: bool)

  datatype Migration =
    | Migrated(counts: map<string, int>)
    | BadOptions
    | SuspendRefused
    | DumpFailed
    | RestoreFailed
    | CountsRefused(why: RowCounts)
    | RouteFailed
    | ResumeFailed
    | AuditFailed

  /** The first step that did not work is the one reported; only matching counts let a migration past them. */
  ghost predicate Explains(m: Migration, w: World, admitted: bool, free: bool) {
    match m
    case BadOptions => true
    case SuspendRefused => !admitted || exists n :: w.suspend(n)
    case DumpFailed => !w.dump
    case RestoreFailed => w.dump && !(w.restore && free)
    case CountsRefused(why) => Restored(w, free) && !CountsAgree(w.databases) && !why.Matched?
    case RouteFailed => Restored(w, free) && CountsAgree(w.databases) && !w.route
    case ResumeFailed => Restored(w, free) && CountsAgree(w.databases) && w.route && !w.resume
    case AuditFailed => Restored(w, free) && CountsAgree(w.databases) && w.route && w.resume && !w.audit
    case Migrated(_) => Restored(w, free) && CountsAgree(w.databases) && w.route && w.resume && w.audit
  }

  /** The schema was copied; pool B must not have had it before. */
  predicate Restored(w: World, free: bool) {
    w.dump && w.restore && free
  }

  function Actor(o: Options): string {
    if o.actor == "" then "migration@neksur.com" else o.actor
  }

  function WithPoolB(d: Db, id: Id): Db {
    d.(schemas := d.schemas + {(id, B)})
  }

  class Repo {
    var db: Db

    constructor (d: Db)
      ensures db == d
    {
      db := d;
    }

    /** `fails(n)` tells whether the database gives up at the update, the audit row or the commit. */
    method TransitionLifecycle(id: Id, to: State, from: set<State>, actor: string, fails: nat -> bool)
        returns (o: Outcome)
      modifies this
      ensures o in {Ok, NotFound, StoreFailed}
      ensures o.Ok? ==>
        id in old(db).tenants && old(db).tenants[id].state in from && db == Entering(old(db), id, to, actor)
      ensures o.Ok? ==>
        && db.tenants == old(db).tenants[id := old(db).tenants[id].(state := to)]
        && db.audit == old(db).audit + [Entry(id, Entered(to), actor)]
        && db.schemas == old(db).schemas
      ensures !o.Ok? ==> db == old(db)
      ensures o.NotFound? ==> !(id in db.tenants && db.tenants[id].state in from)
      ensures (forall n :: !fails(n)) ==> !o.StoreFailed?
    {
      if fails(0) {
        return StoreFailed;
      }
      var rows := if id in db.tenants && db.tenants[id].state in from then 1 else 0;
      if rows == 0 {
        return NotFound;
      }
      var d := WithState(db, id, to);
      if fails(1) {
        return StoreFailed;
      }
      d := d.(audit := d.audit + [Entry(id, Entered(to), actor)]);
      if fails(2) {
        return StoreFailed;
      }
      db := d;
      return Ok;
    }

    method Suspend(id: Id, actor: string, fails: nat -> bool) returns (o: Outcome)
      modifies this
      ensures o.Ok? ==> Admits(old(db), id, Suspended) && db == Entering(old(db), id, Suspended, actor)
      ensures o.Ok? ==>
        && old(db).tenants[id].state == Active
        && db.tenants == old(db).tenants[id := old(db).tenants[id].(state := Suspended)]
        && db.audit == old(db).audit + [Entry(id, Entered(Suspended), actor)]
        && db.schemas == old(db).schemas
      ensures !o.Ok? ==> db == old(db)
      ensures (forall n :: !fails(n)) ==> (o.Ok? <==> Admits(old(db), id, Suspended))
    {
      o := TransitionLifecycle(id, State.Suspended, {Active}, actor, fails);
    }

    method WindDown(id: Id, actor: string, fails: nat -> bool) returns (o: Outcome)
      modifies this
      ensures o.Ok? ==> Admits(old(db), id, State.WindDown) && db == Entering(old(db), id, State.WindDown, actor)
      ensures o.Ok? ==>
        && (old(db).tenants[id].state == Active || old(db).tenants[id].state == Suspended)
        && db.tenants == old(db).tenants[id := old(db).tenants[id].(state := State.WindDown)]
        && db.audit == old(db).audit + [Entry(id, Entered(State.WindDown), actor)]
        && db.schemas == old(db).schemas
      ensures !o.Ok? ==> db == old(db)
      ensures (forall n :: !fails(n)) ==> (o.Ok? <==> Admits(old(db), id, State.WindDown))
    {
      o := TransitionLifecycle(id, State.WindDown, {Active, Suspended}, actor, fails);
    }

    /**
     `fails` is for the transition, `dropFails` for the second transaction: its preparation and
     its commit.  The schema goes only with the second, and only that of pool A, to which the
     repository is connected.  A statement that raised has aborted its
     transaction, whose commit then fails, so a graph that is "already gone" ends in an error too.
     */
    method Delete(id: Id, actor: string, confirm: bool, fails: nat -> bool, drop: DropAnswer, dropFails: nat -> bool)
        returns (o: Outcome)
      modifies this
      ensures o.NotConfirmed? <==> !confirm
      ensures o in {NotConfirmed, NotFound, StoreFailed} ==> db == old(db)
      ensures o in {Ok, DropFailed, CommitFailed} ==> Admits(old(db), id, Deleted)
      ensures o in {Ok, DropFailed, CommitFailed} ==>
        && old(db).tenants[id].state != Deleted
        && db.tenants == old(db).tenants[id := old(db).tenants[id].(state := Deleted)]
        && db.audit == old(db).audit + [Entry(id, Entered(Deleted), actor)]
      ensures o in {DropFailed, CommitFailed} ==> db == Entering(old(db), id, Deleted, actor)
      ensures o.Ok? ==> drop.Dropped?
      ensures o.Ok? ==> db == Entering(old(db), id, Deleted, actor).(schemas := old(db).schemas - {(id, A)})
      ensures confirm && (forall n :: !fails(n)) ==> (o.NotFound? <==> !Admits(old(db), id, Deleted))
      ensures confirm && (forall n :: !fails(n) && !dropFails(n)) && Admits(old(db), id, Deleted) ==>
        o == if drop.Dropped? then Ok
             else if Contains(drop.message, "does not exist") && Contains(drop.message, "graph") then CommitFailed
             else DropFailed
    {
      if !confirm {
        return NotConfirmed;
      }
      o := TransitionLifecycle(id, Deleted, {Active, Suspended, State.WindDown}, actor, fails);
      if !o.Ok? {
        return;
      }
      if dropFails(0) {
        return DropFailed;
      }
      var schemas := db.schemas;
      match drop {
        case Dropped => schemas := schemas - {(id, A)};
        case Raised(message) =>
          if !UndefinedGraph(message) {
            return DropFailed;
          }
      }
      if dropFails(1) || drop.Raised? {
        return CommitFailed;
      }
      db := db.(schemas := schemas);
      return Ok;
    }

    /** The unguarded state write. */
    method SetLifecycleState(id: Id, state: string, works: bool) returns (o: Outcome)
      modifies this
      ensures o == (if !works || (id in old(db).tenants && StateNamed(state).None?) then StoreFailed
                    else if id !in old(db).tenants then NotFound else Ok)
      ensures db == if o.Ok? then WithState(old(db), id, StateNamed(state).value) else old(db)
      ensures o.Ok? ==>
        var s := db.tenants[id].state;
        && state == (match s
                     case Active => "active" case Suspended => "suspended"
                     case WindDown => "wind_down" case Deleted => "deleted")
        && db.tenants == old(db).tenants[id := old(db).tenants[id].(state := s)]
        && db.audit == old(db).audit && db.schemas == old(db).schemas
    {
      if !works {
        return StoreFailed;
      }
      if id !in db.tenants {
        return NotFound;
      }
      var s := StateNamed(state);
      if s.None? {
        return StoreFailed;
      }
      db := WithState(db, id, s.value);
      return Ok;
    }

    method UpdatePoolAndDSN(id: Id, pool: string, dsn: string, works: bool) returns (o: Outcome)
      modifies this
      ensures o == (if pool != "A" && pool != "B" then BadPool
                    else if !works then StoreFailed
                    else if id !in old(db).tenants then NotFound else Ok)
      ensures db == if o.Ok? then Routed(old(db), id, if pool == "A" then A else B, dsn) else old(db)
      ensures o.Ok? ==>
        var t := Tenant(old(db).tenants[id].state, if pool == "A" then A else B, dsn);
        db.tenants == old(db).tenants[id := t] && db.audit == old(db).audit && db.schemas == old(db).schemas
    {
      if pool != "A" && pool != "B" {
        return BadPool;
      }
      if !works {
        return StoreFailed;
      }
      if id !in db.tenants {
        return NotFound;
      }
      db := Routed(db, id, if pool == "A" then A else B, dsn);
      return Ok;
    }

    /** Dump, restore and comparison of the counts, for a suspended tenant. */
    method CopyToPoolB(id: Id, w: World) returns (failed: Option<Migration>, counts: map<string, int>)
      modifies this
      ensures failed.Some? ==> failed.value.DumpFailed? || failed.value.RestoreFailed? || failed.value.CountsRefused?
      ensures failed.Some? ==> Explains(failed.value, w, true, (id, B) !in old(db).schemas)
      ensures failed.None? ==> Restored(w, (id, B) !in old(db).schemas) && CountsAgree(w.databases)
      ensures db == if failed == Some(DumpFailed) || (failed == Some(RestoreFailed) && !w.partial) then old(db)
        else WithPoolB(old(db), id)
      ensures failed.None? ==>
        forall t :: t in w.databases.tables.value ==> t in counts && w.databases.source(t) == Answer(counts[t])
    {
      hide CountsAgree, FirstTrouble, Agrees;
      if !w.dump {
        return Some(DumpFailed), map[];
      }
      if !w.restore || (id, B) in db.schemas {
        if w.partial {
          db := WithPoolB(db, id);
        }
        return Some(RestoreFailed), map[];
      }
      db := WithPoolB(db, id);
      var r := ValidateRowCounts(w.databases);
      if !r.Matched? {
        return Some(CountsRefused(r)), map[];
      }
      return None, r.counts;
    }

    /** Pool flip, resume and audit row, for a tenant that was copied. */
    method SwitchToPoolB(o: Options, w: World, counts: map<string, int>) returns (m: Migration)
      requires o.tenant in db.tenants
      modifies this
      ensures m ==
        if !w.route then RouteFailed else if !w.resume then ResumeFailed else if !w.audit then AuditFailed
        else Migrated(counts)
      ensures db.schemas == old(db).schemas
      ensures db.tenants ==
        if !w.route then old(db).tenants
        else old(db).tenants[o.tenant :=
          Tenant(if w.resume then Active else old(db).tenants[o.tenant].state, B, o.poolB)]
      ensures db.audit == old(db).audit + if m.Migrated? then [Entry(o.tenant, MigratedAToB, Actor(o))] else []
    {
      hide Routed, WithState, Actor;
      var routed := UpdatePoolAndDSN(o.tenant, "B", o.poolB, w.route);
      if !routed.Ok? {
        return RouteFailed;
      }
      var resumed := SetLifecycleState(o.tenant, "active", w.resume);
      if !resumed.Ok? {
        return ResumeFailed;
      }
      if !w.audit {
        return AuditFailed;
      }
      db := db.(audit := db.audit + [Entry(o.tenant, MigratedAToB, Actor(o))]);
      return Migrated(counts);
    }

    /** The migration, with nobody else at work on the table. */
    method MigratePoolAToB(o: Options, w: World) returns (m: Migration)
      modifies this
      ensures m.BadOptions? <==> !ValidOptions(o)
      ensures !m.BadOptions? && !m.SuspendRefused? ==> Admits(old(db), o.tenant, Suspended)
      ensures Explains(m, w, Admits(old(db), o.tenant, Suspended), (o.tenant, B) !in old(db).schemas)
      ensures m.Migrated? ==>
        forall t :: t in w.databases.tables.value ==> t in m.counts && w.databases.source(t) == Answer(m.counts[t])
      // The tenant is routed to pool B only behind a whole copy whose counts all agree, whatever fails later.
      ensures
        var id, begun := o.tenant, !m.BadOptions? && !m.SuspendRefused?;
        var free := (id, B) !in old(db).schemas;
        var routed := begun && w.dump && w.restore && free && CountsAgree(w.databases) && w.route;
        && (begun ==> id in old(db).tenants && old(db).tenants[id].state == Active)
        && (id in old(db).tenants ==>
              && id in db.tenants
              && db.tenants[id].pool == (if routed then B else old(db).tenants[id].pool)
              && db.tenants[id].dsn == (if routed then o.poolB else old(db).tenants[id].dsn)
              && db.tenants[id].state == (if !begun then old(db).tenants[id].state
                                          else if routed && w.resume then Active else Suspended))
        && (m.Migrated? <==> routed && w.resume && w.audit)
      // Nothing else moves but the copy's schema and the log, which tells the suspension and the whole migration only.
      ensures db.tenants.Keys == old(db).tenants.Keys
      ensures forall id :: id in old(db).tenants && id != o.tenant ==> db.tenants[id] == old(db).tenants[id]
      ensures m.BadOptions? || m.SuspendRefused? ==> db == old(db)
      ensures !m.BadOptions? && !m.SuspendRefused? ==>
        var actor := if o.actor == "" then "migration@neksur.com" else o.actor;
        var suspension := Entry(o.tenant, Entered(Suspended), actor);
        db.audit == old(db).audit
        + if m.Migrated? then [suspension, Entry(o.tenant, MigratedAToB, actor)] else [suspension]
      ensures !m.BadOptions? && !m.SuspendRefused? ==>
        db.schemas ==
        if m.DumpFailed? || (m.RestoreFailed? && !w.partial) then old(db).schemas else old(db).schemas + {(o.tenant, B)}
    {
      hide CountsAgree, FirstTrouble, Agrees, PostgresDsn, Entering, Routed, WithState, From;
      if o.tenant == ZERO_ID || !PostgresDsn(o.poolA) || !PostgresDsn(o.poolB) {
        return BadOptions;
      }
      var suspended := Suspend(o.tenant, Actor(o), w.suspend);
      if !suspended.Ok? {
        return SuspendRefused;
      }
      var failed, counts := CopyToPoolB(o.tenant, w);
      if failed.Some? {
        return failed.value;
      }
      m := SwitchToPoolB(o, w, counts);
    }
  }

  // ---- The guards are the forward order ----

  /** A guarded transition is admitted exactly when it moves the tenant forward. */
  lemma AdmitsIffForward(d: Db, id: Id, to: State)
    ensures Admits(d, id, to) <==> id in d.tenants && Rank(d.tenants[id].state) < Rank(to)
  {
  }

  // ---- Interleaved lifecycle calls ----

  /** One committed or refused statement of some caller; schema drops and pool routing leave states alone. */
  datatype Op =
    | Move(id: Id, to: State, actor: string)
    | DropSchema(id: Id)
    | Restore(id: Id)
    | Route(id: Id, pool: Pool, dsn: string)

  function Step(d: Db, op: Op): Db {
    match op
    case Move(id, to, actor) => if Admits(d, id, to) then Entering(d, id, to, actor) else d
    case DropSchema(id) => d.(schemas := d.schemas - {(id, A)})
    case Restore(id) => WithPoolB(d, id)
    case Route(id, pool, dsn) => if id in d.tenants then Routed(d, id, pool, dsn) else d
  }

  function Run(d: Db, ops: seq<Op>): Db {
    if ops == [] then d else Step(Run(d, ops[..|ops| - 1]), ops[|ops| - 1])
  }

  /** Same tenants, each at its old state or further on. */
  predicate Onward(d: Db, d': Db) {
    d'.tenants.Keys == d.tenants.Keys
    && forall id :: id in d.tenants ==> Rank(d.tenants[id].state) <= Rank(d'.tenants[id].state)
  }

  lemma StepIsOnward(d: Db, op: Op)
    ensures Onward(d, Step(d, op))
  {
  }

  /** Between any two points of a run every tenant only moves forward; deleted is final. */
  lemma {:induction false} RunsMoveForward(d: Db, ops: seq<Op>, n: nat)
    requires n <= |ops|
    ensures Onward(Run(d, ops[..n]), Run(d, ops))
  {
    if n < |ops| {
      var before := ops[..|ops| - 1];
      RunsMoveForward(d, before, n);
      assert before[..n] == ops[..n];
      StepIsOnward(Run(d, before), ops[|ops| - 1]);
    } else {
      assert ops[..n] == ops;
    }
  }

  /**
   Deleted is final.  So a delete whose schema drop failed cannot be retried: the guard refuses
   every later delete, whatever else is called meanwhile.
   */
  lemma {:induction false} DeletedIsFinal(d: Db, ops: seq<Op>, id: Id)
    requires id in d.tenants && d.tenants[id].state == Deleted
    ensures !Admits(Run(d, ops), id, Deleted)
    ensures id in Run(d, ops).tenants && Run(d, ops).tenants[id].state == Deleted
  {
    RunsMoveForward(d, ops, 0);
    assert ops[..0] == [];
  }

  function StatesOf(d: Db): map<Id, State> {
    map id | id in d.tenants :: d.tenants[id].state
  }

  /** The states told by the lifecycle rows of an audit log, read in order. */
  function Replay(states: map<Id, State>, log: seq<Entry>): map<Id, State> {
    if log == [] then states
    else
      var earlier, e := Replay(states, log[..|log| - 1]), log[|log| - 1];
      if e.event.Entered? then earlier[e.tenant := e.event.state] else earlier
  }

  lemma ReplayOfMore(states: map<Id, State>, log: seq<Entry>, e: Entry)
    ensures Replay(states, log + [e]) ==
      if e.event.Entered? then Replay(states, log)[e.tenant := e.event.state] else Replay(states, log)
  {
    assert (log + [e])[..|log|] == log;
  }

  /** Replaying the audit log over the states the tenants began with rebuilds every tenant's state. */
  lemma {:induction false} AuditRebuildsStates(began: map<Id, State>, d: Db, ops: seq<Op>)
    requires Replay(began, d.audit) == StatesOf(d)
    ensures Replay(began, Run(d, ops).audit) == StatesOf(Run(d, ops))
  {
    if ops != [] {
      var before, op := ops[..|ops| - 1], ops[|ops| - 1];
      AuditRebuildsStates(began, d, before);
      var b := Run(d, before);
      if op.Move? && Admits(b, op.id, op.to) {
        ReplayOfMore(began, b.audit, Entry(op.id, Entered(op.to), op.actor));
        assert StatesOf(Step(b, op)) == StatesOf(b)[op.id := op.to];
      } else {
        assert StatesOf(Step(b, op)) == StatesOf(b);
      }
    }
  }

  /** Lifecycle rows of one tenant. */
  function Moves(log: seq<Entry>, id: Id): nat {
    if log == [] then 0
    else
      var e := log[|log| - 1];
      Moves(log[..|log| - 1], id) + if e.tenant == id && e.event.Entered? then 1 else 0
  }

  lemma MovesOfMore(log: seq<Entry>, id: Id, e: Entry)
    ensures Moves(log + [e], id) == Moves(log, id) + if e.tenant == id && e.event.Entered? then 1 else 0
  {
    assert (log + [e])[..|log|] == log;
  }

  /** A run adds no more rows for a tenant than the steps it went forward, so never more than three. */
  lemma {:induction false} MovesAreBounded(d: Db, ops: seq<Op>, id: Id)
    requires id in d.tenants
    ensures id in Run(d, ops).tenants
    ensures Moves(Run(d, ops).audit, id) - Moves(d.audit, id)
      <= Rank(Run(d, ops).tenants[id].state) - Rank(d.tenants[id].state) <= 3
  {
    if ops != [] {
      var before, op := ops[..|ops| - 1], ops[|ops| - 1];
      MovesAreBounded(d, before, id);
      var b := Run(d, before);
      if op.Move? {
        AdmitsIffForward(b, op.id, op.to);
        MovesOfMore(b.audit, id, Entry(op.id, Entered(op.to), op.actor));
      }
    }
  }

  // ---- A migration among other callers ----

  /** A caller moves the tenant past suspension. */
  predicate MovesOn(op: Op, id: Id) {
    op.Move? && op.id == id && op.to in {WindDown, Deleted}
  }

  /** A suspended tenant is still suspended exactly when nobody asked to wind it down or delete it. */
  lemma {:induction false} StaysSuspendedIff(d: Db, id: Id, ops: seq<Op>)
    requires id in d.tenants && d.tenants[id].state == Suspended
    ensures Run(d, ops).tenants.Keys == d.tenants.Keys
    ensures Rank(Run(d, ops).tenants[id].state) >= Rank(Suspended)
    ensures Run(d, ops).tenants[id].state == Suspended <==> forall k :: 0 <= k < |ops| ==> !MovesOn(ops[k], id)
  {
    if ops != [] {
      var before := ops[..|ops| - 1];
      StaysSuspendedIff(d, id, before);
      assert ops == before + [ops[|ops| - 1]];
    }
  }

  lemma {:induction false} RunFirst(d: Db, op: Op, ops: seq<Op>)
    ensures Run(d, [op] + ops) == Run(Step(d, op), ops)
  {
    if ops == [] {
      assert [op] + ops == [op] && [op][..0] == [];
    } else {
      RunFirst(d, op, ops[..|ops| - 1]);
      assert ([op] + ops)[..|ops|] == [op] + ops[..|ops| - 1];
    }
  }

  /**
   Between a migration's suspension and its resume others may call.  The resume takes back only
   the migration's own suspension exactly when nobody asked to wind the tenant down or delete it
   meanwhile.  Other tenants only move forward.  The audit log keeps what the resume overwrote:
   replaying it tells the state before the resume, which is never active.
   */
  lemma ResumeUndoesOnlyItselfIff(began: map<Id, State>, d: Db, id: Id, actor: string, ops: seq<Op>)
    requires Admits(d, id, Suspended) && Replay(began, d.audit) == StatesOf(d)
    ensures
      var before := Run(d, [Move(id, Suspended, actor)] + ops);
      && id in before.tenants
      && before.tenants[id].state != Active
      && (before.tenants[id].state == Suspended <==> forall k :: 0 <= k < |ops| ==> !MovesOn(ops[k], id))
      && var resumed := WithState(before, id, Active);
         && Onward(d, resumed)
         && Replay(began, resumed.audit) == StatesOf(resumed)[id := before.tenants[id].state]
  {
    hide Run, Replay;
    var suspend := Move(id, Suspended, actor);
    var before := Run(d, [suspend] + ops);
    RunFirst(d, suspend, ops);
    StaysSuspendedIff(Step(d, suspend), id, ops);
    AuditRebuildsStates(began, d, [suspend] + ops);
    RunsMoveForward(d, [suspend] + ops, 0);
    RunOfNothing(d, [suspend] + ops);
    assert StatesOf(WithState(before, id, Active))[id := before.tenants[id].state] == StatesOf(before);
  }

  lemma RunOfNothing(d: Db, ops: seq<Op>)
    ensures Run(d, ops[..0]) == d
  {
  }

  /**
   A tenant deleted between the counts and the resume of its migration is active again afterwards and
   routed to its copy in pool B, which the delete left; pool A has no schema of it any more.
   */
  lemma ResumeRevivesDeleted(d: Db, id: Id, actor: string, dsn: string)
    requires Admits(d, id, Suspended)
    ensures
      var ops := [Move(id, Suspended, actor), Restore(id), Move(id, Deleted, actor), DropSchema(id), Route(id, B, dsn)];
      var before := Run(d, ops);
      && id in before.tenants && before.tenants[id].state == Deleted
      && var resumed := WithState(before, id, Active);
         && resumed.tenants[id] == Tenant(Active, B, dsn)
         && (id, A) !in resumed.schemas && (id, B) in resumed.schemas
         && resumed.audit == d.audit + [Entry(id, Entered(Suspended), actor), Entry(id, Entered(Deleted), actor)]
  {
    hide Run;
    var ops := [Move(id, Suspended, actor), Restore(id), Move(id, Deleted, actor), DropSchema(id), Route(id, B, dsn)];
    var d1 := Step(d, ops[0]);
    var d2 := Step(d1, ops[1]);
    var d3 := Step(d2, ops[2]);
    var d4 := Step(d3, ops[3]);
    RunFirst(d, ops[0], ops[1..]);
    RunFirst(d1, ops[1], ops[2..]);
    RunFirst(d2, ops[2], ops[3..]);
    RunFirst(d3, ops[3], ops[4..]);
    RunFirst(d4, ops[4], []);
    RunOfNothing(Step(d4, ops[4]), []);
    assert ops == [ops[0]] + ops[1..] && ops[1..] == [ops[1]] + ops[2..] && ops[2..] == [ops[2]] + ops[3..];
    assert ops[3..] == [ops[3]] + ops[4..] && ops[4..] == [ops[4]] + [];
  }

  /** Nothing that is called on tenants removes a schema from pool B, the delete of a migrated tenant included. */
  lemma {:induction false} PoolBSchemaStays(d: Db, ops: seq<Op>, id: Id)
    requires (id, B) in d.schemas
    ensures (id, B) in Run(d, ops).schemas
  {
    if ops != [] {
      PoolBSchemaStays(d, ops[..|ops| - 1], id);
    }
  }
}
