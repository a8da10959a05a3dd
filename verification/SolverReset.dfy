/** Preserving configuration, proving it restorable, erasing solver rows and clearing runtime data, with a crash
    possible between any two effects. Digests are modelled by the digested contents themselves. */
module SolverReset {

  import opened Partial
  import opened Wrappers

  type Row = string

  datatype Table = Table(schema: string, name: string)

  /** A foreign key; a table outside the public schema is named with its schema. */
  datatype Key = Key(source: string, target: string)

  /** The database server: what a dump restores to, and what rows copied into a table and out again come back as. */
  datatype Server = Server(restore: Digests -> Digests, copy: seq<Row> -> seq<Row>)

  /** The two explicit lists of public tables the tool knows, and the server they live on. */
  datatype Domain = Domain(configuration: set<string>, solver: set<string>, server: Server)

  const MIGRATIONS := "drizzle.__drizzle_migrations"
  const REQUIRED: set<string> := {"airfoils", "sim_campaigns", "sync_api_settings"}

  datatype Inventory = Inventory(configuration: set<string>, solver: set<string>)

  predicate IsMigrations(t: Table) { t.schema == "drizzle" && t.name == "__drizzle_migrations" }

  // ---------- classification ----------

  predicate Classifiable(d: Domain, tables: seq<Table>) {
    && (forall t :: t in tables && !IsMigrations(t) ==> t.schema == "public" && (t.name in d.configuration || t.name in d.solver))
    && REQUIRED <= Classified(d, tables).configuration
  }

  function Classified(d: Domain, tables: seq<Table>): Inventory {
    Inventory(set t | t in tables && !IsMigrations(t) && t.name in d.configuration :: t.name,
              set t | t in tables && !IsMigrations(t) && t.name !in d.configuration && t.name in d.solver :: t.name)
  }

  method ClassifyTables(d: Domain, tables: seq<Table>) returns (r: Result<Inventory>)
    ensures r == if Classifiable(d, tables) then Ok(Classified(d, tables)) else Err
  {
    var configuration: set<string> := {};
    var solver: set<string> := {};
    for n := 0 to |tables|
      invariant forall t :: t in tables[..n] && !IsMigrations(t) ==> t.schema == "public" && (t.name in d.configuration || t.name in d.solver)
      invariant Inventory(configuration, solver) == Classified(d, tables[..n])
    {
      var t := tables[n];
      assert tables[..n + 1] == tables[..n] + [t];
      if !IsMigrations(t) {
        if t.schema != "public" {
          assert t in tables;
          return Err;
        }
        if t.name in d.configuration {
          configuration := configuration + {t.name};
        } else if t.name in d.solver {
          solver := solver + {t.name};
        } else {
          assert t in tables;
          return Err;
        }
      }
    }
    assert tables[..|tables|] == tables;
    r := if REQUIRED <= configuration then Ok(Inventory(configuration, solver)) else Err;
  }

  /** Configuration never depends on anything outside itself. */
  predicate KeysAllowed(keys: seq<Key>, configuration: set<string>) {
    forall k :: k in keys && k.source in configuration ==> k.target in configuration
  }

  /** Every foreign key starts at an inventoried table or at the migrations table. */
  ghost predicate KeysListed(d: Domain, tables: seq<Table>, keys: seq<Key>) {
    forall k :: k in keys ==>
      k.source == MIGRATIONS || k.source in Classified(d, tables).configuration || k.source in Classified(d, tables).solver
  }

  /** TRUNCATE ... RESTRICT refuses when some table outside the list references one inside it. */
  predicate Restricted(keys: seq<Key>, targets: set<string>) {
    exists k :: k in keys && k.target in targets && k.source !in targets
  }

  predicate Truncatable(d: Domain, targets: set<string>) { targets != {} && targets <= d.solver }

  /** The truncated set is closed under incoming foreign keys; only the migrations table could still block it. */
  lemma TruncationIsBlockedExactly(d: Domain, tables: seq<Table>, keys: seq<Key>)
    requires d.configuration !! d.solver && Classifiable(d, tables)
    requires KeysAllowed(keys, Classified(d, tables).configuration) && KeysListed(d, tables, keys)
    requires MIGRATIONS !in Classified(d, tables).solver
    ensures Restricted(keys, Classified(d, tables).solver) <==>
            exists k :: k in keys && k.source == MIGRATIONS && k.target in Classified(d, tables).solver
  {
    var i := Classified(d, tables);
    forall k | k in keys && k.target in i.solver && k.source !in i.solver ensures k.source == MIGRATIONS {
      assert k.source !in i.configuration;
    }
  }

  /** Such a key is accepted by every check of the tool: here the migrations table references a solver table. */
  lemma MigrationsKeyBlocks(server: Server)
    ensures var d := Domain(REQUIRED, {"results"}, server);
            var tables := [Table("public", "airfoils"), Table("public", "sim_campaigns"), Table("public", "sync_api_settings"),
                           Table("public", "results"), Table("drizzle", "__drizzle_migrations")];
            var keys := [Key(MIGRATIONS, "results")];
            && Classifiable(d, tables) && KeysAllowed(keys, Classified(d, tables).configuration) && KeysListed(d, tables, keys)
            && Truncatable(d, Classified(d, tables).solver) && Restricted(keys, Classified(d, tables).solver)
  {
    var d := Domain(REQUIRED, {"results"}, server);
    var tables := [Table("public", "airfoils"), Table("public", "sim_campaigns"), Table("public", "sync_api_settings"),
                   Table("public", "results"), Table("drizzle", "__drizzle_migrations")];
    assert tables[0] in tables && tables[1] in tables && tables[2] in tables && tables[3] in tables;
    assert Classified(d, tables).solver == {"results"};
    assert Key(MIGRATIONS, "results") in [Key(MIGRATIONS, "results")];
  }

  // ---------- the world ----------

  /** The digests of the configuration tables and of the migrations table. */
  datatype Digests = Digests(tables: map<string, seq<Row>>, migrations: seq<Row>)

  datatype Artifacts = Artifacts(dump: Digests, scope: seq<Row>, environment: string)

  /** groups is the number of target rows counted in the scratch database. */
  datatype Receipt = Receipt(inventory: Inventory, configuration: Digests, groups: nat, artifacts: Artifacts)

  datatype Archive = Partial | Complete(dump: Digests)

  datatype Database = Database(tables: seq<Table>, keys: seq<Key>, rows: map<string, seq<Row>>, migrations: seq<Row>, quiesced: bool)

  /** The audit directory and the scratch database of the restore proof; `restored` is the scope copied out of it. */
  datatype Audit = Audit(archive: Option<Archive>, scope: Option<seq<Row>>, environment: Option<string>,
                         scratch: bool, restored: Option<seq<Row>>, receipt: Option<Receipt>)

  datatype Runtime = Runtime(volumes: map<string, set<string>>, redisEmpty: bool, cleared: bool)

  /** `erased` is the database-erased.json marker. */
  datatype World = World(db: Database, audit: Audit, erased: bool, runtime: Runtime)

  function RowsOf(w: World, table: string): seq<Row> { if table in w.db.rows then w.db.rows[table] else [] }

  function DigestsOf(w: World, tables: set<string>): Digests {
    Digests(map t | t in tables :: RowsOf(w, t), w.db.migrations)
  }

  /** Equal digests mean equal migrations and, table by table, equal rows. */
  lemma DigestsTell(w: World, v: World, tables: set<string>)
    ensures DigestsOf(w, tables) == DigestsOf(v, tables) <==>
            w.db.migrations == v.db.migrations && forall t :: t in tables ==> RowsOf(w, t) == RowsOf(v, t)
  {
    hide RowsOf;
    if DigestsOf(w, tables) == DigestsOf(v, tables) {
      forall t | t in tables ensures RowsOf(w, t) == RowsOf(v, t) {
        assert DigestsOf(w, tables).tables[t] == RowsOf(w, t) && DigestsOf(v, tables).tables[t] == RowsOf(v, t);
      }
    }
  }

  predicate SolverEmpty(w: World, solver: set<string>) { forall t :: t in solver ==> RowsOf(w, t) == [] }

  /** The receipt belongs to this schema, the configuration is what it recorded, and its artifacts are intact. */
  predicate Preserved(w: World, i: Inventory) {
    && w.audit.receipt.Some?
    && var r := w.audit.receipt.value;
       r.inventory == i && r.configuration == DigestsOf(w, i.configuration)
       && w.audit.archive == Some(Complete(r.artifacts.dump)) && w.audit.scope == Some(r.artifacts.scope)
       && w.audit.environment == Some(r.artifacts.environment)
  }

  /** Restoring the dump gives the recorded configuration, and the target rows come back unchanged. */
  ghost predicate Proved(d: Domain, r: Receipt) {
    d.server.restore(r.artifacts.dump) == r.configuration && d.server.copy(r.artifacts.scope) == r.artifacts.scope
  }

  ghost predicate Restorable(d: Domain, w: World) { w.audit.receipt.Some? ==> Proved(d, w.audit.receipt.value) }

  function Truncated(w: World, targets: set<string>): World {
    w.(db := w.db.(rows := map t | t in w.db.rows :: if t in targets then [] else w.db.rows[t]))
  }

  // ---------- what every state of every run satisfies ----------

  /** Nothing outside the known solver tables ever changes. */
  ghost predicate ConfigurationKept(d: Domain, w: World, v: World) {
    && v.db.tables == w.db.tables && v.db.keys == w.db.keys && v.db.migrations == w.db.migrations
    && v.db.rows.Keys == w.db.rows.Keys && forall t :: t in w.db.rows && t !in d.solver ==> v.db.rows[t] == w.db.rows[t]
  }

  /** One effect: rows disappear only under a matching receipt and before the erased marker, a receipt once written is
      never replaced, and an archive once complete is never overwritten. */
  ghost predicate EffectAllowed(d: Domain, w: World, v: World) {
    && ConfigurationKept(d, w, v)
    && (v.db.rows != w.db.rows ==> ProofHolds(d, w) && !w.erased && v == Truncated(w, Classified(d, w.db.tables).solver))
    && (w.audit.receipt.Some? ==> v.audit.receipt == w.audit.receipt)
    && (w.audit.archive.Some? ==> v.audit.archive == w.audit.archive || (w.audit.archive == Some(Partial) && v.audit.archive.Some?))
    && (w.erased ==> v.erased)
    && (Restorable(d, w) ==> Restorable(d, v))
  }

  ghost predicate HistoryAllowed(d: Domain, history: seq<World>) {
    |history| > 0 && forall k :: 0 <= k < |history| - 1 ==> EffectAllowed(d, history[k], history[k + 1])
  }

  /** A crash point before each effect. */
  type Schedule = nat -> bool

  /** What other processes have made of the runtime and of the stopped writers by the n-th repeated check. */
  type Others = (nat, World) -> (Runtime, bool)

  /** The world the n-th repeated check meets; markers in the audit directory belong to the tool alone. */
  function Met(others: Others, n: nat, w: World): World {
    var (runtime, quiesced) := others(n, w);
    w.(runtime := runtime.(cleared := w.runtime.cleared), db := w.db.(quiesced := quiesced))
  }

  /** Volumes emptied, the nested mount point created, the queue flushed. */
  function Cleaned(w: World): World {
    var empty := map v | v in w.runtime.volumes :: {};
    w.(runtime := w.runtime.(volumes := if "results" in empty then empty["results" := {"sync-imports"}] else empty, redisEmpty := true))
  }

  /** No repeated check of the runtime cleaning finds anything. */
  ghost predicate StaysClean(others: Others, erased: World) {
    var before := Met(others, 1, erased);
    var after := Met(others, 2, Cleaned(before));
    before.db.quiesced && RuntimeEmpty(after.runtime) && after.runtime.redisEmpty && Met(others, 3, after).db.quiesced
  }

  ghost function ClearedWorld(others: Others, erased: World): World {
    var last := Met(others, 3, Met(others, 2, Cleaned(Met(others, 1, erased))));
    last.(runtime := last.runtime.(cleared := true))
  }

  /** The audit directory after an export and its restore proof. */
  function ProvedAudit(before: Digests, scope: seq<Row>, environment: string): Audit {
    Audit(Some(Complete(before)), Some(scope), Some(environment), false, Some(scope), None)
  }

  datatype Exit<+T> = Done(value: T) | Refused | Crashed

  class Reset {
    const domain: Domain
    var world: World
    ghost var history: seq<World>

    constructor (d: Domain, w: World)
      ensures domain == d && world == w && history == [w]
    {
      domain := d;
      world := w;
      history := [w];
    }

    ghost predicate Consistent()
      reads this
    {
      HistoryAllowed(domain, history) && history[|history| - 1] == world
    }

    method Advance(next: World)
      requires Consistent() && EffectAllowed(domain, world, next)
      modifies this
      ensures Consistent() && world == next && history == old(history) + [next]
    {
      world := next;
      history := history + [next];
    }

    /** Other processes run; the tool sees the result at its n-th repeated check. */
    method Yield(others: Others, n: nat)
      requires Consistent()
      modifies this
      ensures Consistent() && old(history) <= history && world == Met(others, n, old(world))
    {
      Advance(Met(others, n, world));
    }

    method TakeInventory() returns (r: Result<Inventory>)
      ensures r == if Classifiable(domain, world.db.tables) && KeysAllowed(world.db.keys, Classified(domain, world.db.tables).configuration)
                   then Ok(Classified(domain, world.db.tables)) else Err
    {
      r := ClassifyTables(domain, world.db.tables);
      if r.Ok? && !KeysAllowed(world.db.keys, r.value.configuration) {
        r := Err;
      }
    }

    /** `preserve`: export, prove the export restores, and only then write the receipt. */
    method Preserve(environment: string, scopeRows: seq<Row>, others: Others, crash: Schedule) returns (exit: Exit<Receipt>)
      requires Consistent()
      modifies this
      ensures Consistent() && old(history) <= history && DatabaseKept(old(world), world)
      ensures exit.Done? ==> ProofHolds(domain, world) && world.audit.receipt == Some(exit.value) && world.db.quiesced
      ensures old(world.audit.receipt) == None && exit.Done? ==>
                && domain.server.restore(exit.value.artifacts.dump) == exit.value.configuration
                && domain.server.copy(exit.value.artifacts.scope) == exit.value.artifacts.scope == scopeRows
                && exit.value.artifacts.environment == environment && exit.value.groups == |scopeRows|
      // An export that was started but never proved is diagnosed, not overwritten.
      ensures old(world.audit.archive).Some? && old(world.audit.receipt) == None ==> exit == Refused && world == old(world)
      ensures old(world.audit.receipt).Some? ==> world == old(world)
      ensures (forall k :: !crash(k)) ==> (exit.Done? <==> ReadyToPreserve(domain, old(world), environment, scopeRows, others))
      ensures ReadyToPreserve(domain, old(world), environment, scopeRows, others) && old(world.audit.receipt) == None ==>
                if exists k :: 0 <= k < 8 && crash(k) then exit == Crashed && world.audit.receipt == None else exit.Done?
    {
      hide EffectAllowed, DigestsOf, Classified, Classifiable, KeysAllowed, HistoryAllowed;
      if !world.db.quiesced {
        return Refused;
      }
      var inventory := TakeInventory();
      if inventory.Err? {
        return Refused;
      }
      var i := inventory.value;
      if world.audit.receipt.Some? {
        return if Preserved(world, i) then Done(world.audit.receipt.value) else Refused;
      }
      if world.audit.archive.Some? {
        return Refused;
      }
      exit := ExportAndProve(environment, scopeRows, i, others, crash);
    }

    /** A first export: written, proved in the scratch database, recorded. */
    method ExportAndProve(environment: string, scopeRows: seq<Row>, i: Inventory, others: Others, crash: Schedule) returns (exit: Exit<Receipt>)
      requires Consistent() && world.db.quiesced && world.audit.receipt == None && world.audit.archive == None
      requires Classifiable(domain, world.db.tables) && i == Classified(domain, world.db.tables)
      modifies this
      ensures Consistent() && old(history) <= history && DatabaseKept(old(world), world)
      ensures exit.Done? ==> ProofHolds(domain, world) && world.audit.receipt == Some(exit.value) && world.db.quiesced
      ensures exit.Done? ==>
                && domain.server.restore(exit.value.artifacts.dump) == exit.value.configuration
                && domain.server.copy(exit.value.artifacts.scope) == exit.value.artifacts.scope == scopeRows
                && exit.value.artifacts.environment == environment && exit.value.groups == |scopeRows|
      ensures Exportable(domain, old(world), i, environment, scopeRows, others) ==>
                if exists k :: 0 <= k < 8 && crash(k) then exit == Crashed && world.audit.receipt == None else exit.Done?
      ensures !Exportable(domain, old(world), i, environment, scopeRows, others) ==> !exit.Done?
    {
      hide EffectAllowed, DigestsOf, Classified, Classifiable, KeysAllowed, HistoryAllowed;
      var before := DigestsOf(world, i.configuration);
      var exported := Export(environment, scopeRows, i.configuration, crash);
      if !exported {
        return Crashed;
      }
      DigestsUnchanged(old(world), world, i.configuration);
      if DigestsOf(world, i.configuration) != before || world.audit.scratch {
        return Refused;
      }
      var proof := Prove(before, scopeRows, environment, crash);
      if !proof.Done? {
        return match proof case Refused => Refused case _ => Crashed;
      }
      Yield(others, 0);
      if !world.db.quiesced {
        return Refused;
      }
      if crash(7) { return Crashed; }
      var receipt := Receipt(i, before, proof.value, Artifacts(before, scopeRows, environment));
      AdvanceAudit(world.audit.(receipt := Some(receipt)));
      DigestsUnchanged(old(world), world, i.configuration);
      exit := Done(receipt);
    }

    /** One change of the audit directory while there is no receipt yet. */
    method AdvanceAudit(audit: Audit)
      requires Consistent() && ExportStep(domain, world.audit, audit)
      modifies this
      ensures Consistent() && world == old(world).(audit := audit) && old(history) <= history
    {
      ExportAllowed(domain, world, audit);
      Advance(world.(audit := audit));
    }

    /** The dump, the campaign scope and the environment copy, one effect at a time. */
    method Export(environment: string, scopeRows: seq<Row>, configuration: set<string>, crash: Schedule) returns (done: bool)
      requires Consistent() && world.audit.receipt == None && world.audit.archive == None
      modifies this
      ensures Consistent() && old(history) <= history && world == old(world).(audit := world.audit)
      ensures world.audit.receipt == None && world.audit.scratch == old(world.audit.scratch) && world.audit.restored == old(world.audit.restored)
      ensures done ==> world.audit == old(world.audit).(archive := Some(Complete(DigestsOf(old(world), configuration))),
                                                        scope := Some(scopeRows), environment := Some(environment))
      // The audit directory a crash leaves, boundary by boundary.
      ensures done <==> !crash(0) && !crash(1) && !crash(2) && !crash(3)
      ensures crash(0) ==> world == old(world)
      ensures !crash(0) && crash(1) ==> world.audit == old(world.audit).(archive := Some(Partial))
      ensures !crash(0) && !crash(1) && crash(2) ==> world.audit == old(world.audit).(archive := Some(Complete(DigestsOf(old(world), configuration))))
      ensures !crash(0) && !crash(1) && !crash(2) && crash(3) ==>
                world.audit == old(world.audit).(archive := Some(Complete(DigestsOf(old(world), configuration))), scope := Some(scopeRows))
    {
      hide Consistent, DigestsOf;
      var audit := world.audit;
      if crash(0) { return false; }
      audit := audit.(archive := Some(Partial));
      AdvanceAudit(audit);
      if crash(1) { return false; }
      DigestsUnchanged(old(world), world, configuration);
      audit := audit.(archive := Some(Complete(DigestsOf(world, configuration))));
      AdvanceAudit(audit);
      if crash(2) { return false; }
      audit := audit.(scope := Some(scopeRows));
      AdvanceAudit(audit);
      if crash(3) { return false; }
      audit := audit.(environment := Some(environment));
      AdvanceAudit(audit);
      done := true;
    }

    /** `restore_proof` in a scratch database, which is kept for inspection when anything differs. */
    method Prove(before: Digests, scopeRows: seq<Row>, environment: string, crash: Schedule) returns (exit: Exit<nat>)
      requires Consistent() && world.audit.receipt == None && !world.audit.scratch
      requires world.audit.archive == Some(Complete(before)) && world.audit.scope == Some(scopeRows) && world.audit.environment == Some(environment)
      modifies this
      ensures Consistent() && old(history) <= history && world == old(world).(audit := world.audit)
      ensures exit.Done? ==> world.audit == ProvedAudit(before, scopeRows, environment) && exit.value == |scopeRows|
      ensures exit.Done? || exit == Refused ==>
                (exit.Done? <==> domain.server.restore(before) == before && domain.server.copy(scopeRows) == scopeRows)
      ensures exit == Refused ==> world.audit.scratch
      ensures exit == Crashed <==>
                || crash(4)
                || (domain.server.restore(before) == before && (crash(5) || (domain.server.copy(scopeRows) == scopeRows && crash(6))))
      ensures exit == Crashed ==> (world.audit.scratch <==> !crash(4)) && world.audit.receipt == None
    {
      hide Consistent;
      var audit := world.audit;
      if crash(4) { return Crashed; }
      audit := audit.(scratch := true);
      AdvanceAudit(audit);
      if domain.server.restore(before) != before {
        return Refused;
      }
      var copied := domain.server.copy(scopeRows);
      if crash(5) { return Crashed; }
      audit := audit.(restored := Some(copied));
      AdvanceAudit(audit);
      if copied != scopeRows {
        return Refused;
      }
      if crash(6) { return Crashed; }
      AdvanceAudit(audit.(scratch := false));
      exit := Done(|copied|);
    }

    /** `erase`: nothing is truncated without a matching proof, and nothing twice. */
    method Erase(crash: Schedule) returns (exit: Exit<Inventory>)
      requires Consistent() && domain.configuration !! domain.solver
      modifies this
      ensures Consistent() && old(history) <= history
      ensures exit.Done? ==> ProofHolds(domain, world) && exit.value == Classified(domain, world.db.tables)
      ensures exit.Done? ==> SolverEmpty(world, exit.value.solver) && world.erased && world.db.quiesced
      ensures exit.Done? ==> world == ErasedWorld(domain, old(world))
      ensures exit == Refused ==> world == old(world)
      ensures exit == Crashed ==>
                !old(world.erased) && (world == old(world) || world == Truncated(old(world), Classified(domain, old(world).db.tables).solver))
      ensures exit != Crashed ==> (exit.Done? <==> ReadyToErase(domain, old(world)))
      ensures !ReadyToErase(domain, old(world)) ==> exit == Refused
      ensures ReadyToErase(domain, old(world)) ==>
                if old(world.erased) || (!crash(0) && !crash(1)) then exit.Done?
                else exit == Crashed
                     && world == if crash(0) then old(world) else Truncated(old(world), Classified(domain, old(world).db.tables).solver)
    {
      hide EffectAllowed, DigestsOf, Classified, Classifiable, KeysAllowed, HistoryAllowed, Truncated, SolverEmpty, Preserved;
      if !world.db.quiesced {
        return Refused;
      }
      var inventory := TakeInventory();
      if inventory.Err? {
        return Refused;
      }
      var i := inventory.value;
      if !Preserved(world, i) {
        return Refused;
      }
      if !world.erased {
        if !Truncatable(domain, i.solver) || Restricted(world.db.keys, i.solver) {
          return Refused;
        }
        if crash(0) { return Crashed; }
        TruncationIsAllowed(domain, world);
        Advance(Truncated(world, i.solver));
      }
      if !SolverEmpty(world, i.solver) || !Preserved(world, i) {
        return Refused;
      }
      if !world.erased {
        if crash(1) { return Crashed; }
        MarkerIsAllowed(domain, world, i);
        Advance(world.(erased := true));
      }
      exit := Done(i);
    }

    /** Empty the volumes, create the nested mount point and flush the queue. */
    method Clean(crash: Schedule) returns (done: bool)
      requires Consistent()
      modifies this
      ensures Consistent() && old(history) <= history && world == old(world).(runtime := world.runtime)
      ensures world.runtime.cleared == old(world.runtime.cleared)
      ensures done ==> world == Cleaned(old(world)) && !crash(2) && !crash(3)
      ensures !done ==> exists n :: n >= 2 && crash(n)
    {
      hide EffectAllowed, HistoryAllowed;
      var emptied := EmptyVolumes(crash);
      if !emptied || crash(2) { return false; }
      if "results" in world.runtime.volumes {
        AdvanceRuntime(world.runtime.(volumes := world.runtime.volumes["results" := {"sync-imports"}]));
      }
      if crash(3) { return false; }
      AdvanceRuntime(world.runtime.(redisEmpty := true));
      done := true;
    }

    /** `clear_runtime`: only after a successful erase, and without touching the database again. Whatever other processes put
        back before the checks is noticed. */
    method ClearRuntime(mountsVerified: bool, others: Others, crash: Schedule) returns (exit: Exit<()>)
      requires Consistent() && domain.configuration !! domain.solver
      modifies this
      ensures Consistent() && old(history) <= history
      ensures exit.Done? ==> ProofHolds(domain, world) && world.erased && SolverEmpty(world, Classified(domain, world.db.tables).solver)
      ensures exit.Done? ==> StaysClean(others, ErasedWorld(domain, old(world))) && world == ClearedWorld(others, ErasedWorld(domain, old(world)))
      ensures exit == Refused ==> RuntimeOnly(old(world), world) || RuntimeOnly(ErasedWorld(domain, old(world)), world)
      ensures exit == Refused ==> world.runtime.cleared == old(world.runtime.cleared)
      ensures (forall k :: !crash(k)) ==>
                (exit.Done? <==> ReadyToErase(domain, old(world)) && mountsVerified && StaysClean(others, ErasedWorld(domain, old(world))))
      ensures exit.Done? ==> !crash(2) && !crash(3) && !crash(4)
    {
      hide EffectAllowed, Classified, Classifiable, KeysAllowed, HistoryAllowed, SolverEmpty, Preserved, ErasedWorld, Truncated,
           ReadyToErase, RuntimeEmpty, Cleaned;
      var erased := Erase(crash);
      if !erased.Done? {
        return match erased case Refused => Refused case _ => Crashed;
      }
      ghost var erasedWorld := world;
      ErasedKeepsMarker(domain, old(world));
      if !mountsVerified {
        return Refused;
      }
      Yield(others, 1);
      if !world.db.quiesced {
        return Refused;
      }
      var cleaned := Clean(crash);
      if !cleaned { return Crashed; }
      Yield(others, 2);
      if !RuntimeEmpty(world.runtime) || !world.runtime.redisEmpty {
        return Refused;
      }
      Yield(others, 3);
      if !world.db.quiesced {
        return Refused;
      }
      if crash(4) { return Crashed; }
      AdvanceRuntime(world.runtime.(cleared := true));
      RuntimeKeepsProof(domain, erasedWorld, world);
      exit := Done(());
    }

    method AdvanceRuntime(runtime: Runtime)
      requires Consistent()
      modifies this
      ensures Consistent() && world == old(world).(runtime := runtime) && old(history) <= history
    {
      Advance(world.(runtime := runtime));
    }

    /** Remove the children of one volume, one at a time; boundary 5 + n precedes the n-th removal of the whole cleaning. */
    method EmptyVolume(v: string, removed: nat, crash: Schedule) returns (done: bool, count: nat)
      requires Consistent() && v in world.runtime.volumes
      modifies this
      ensures Consistent() && old(history) <= history && v in world.runtime.volumes
      ensures world == old(world).(runtime := old(world.runtime).(volumes := old(world.runtime.volumes)[v := world.runtime.volumes[v]]))
      ensures world.runtime.volumes[v] <= old(world.runtime.volumes)[v]
      ensures if done then world.runtime.volumes[v] == {} else exists n :: n >= 5 && crash(n)
    {
      hide EffectAllowed, HistoryAllowed;
      count := removed;
      while world.runtime.volumes[v] != {}
        invariant Consistent() && old(history) <= history && v in world.runtime.volumes
        invariant world == old(world).(runtime := old(world.runtime).(volumes := old(world.runtime.volumes)[v := world.runtime.volumes[v]]))
        invariant world.runtime.volumes[v] <= old(world.runtime.volumes)[v]
        decreases world.runtime.volumes[v]
      {
        if crash(5 + count) { return false, count; }
        count := count + 1;
        var child :| child in world.runtime.volumes[v];
        AdvanceRuntime(world.runtime.(volumes := world.runtime.volumes[v := world.runtime.volumes[v] - {child}]));
      }
      done := true;
    }

    /** Remove every child of every runtime volume. */
    method EmptyVolumes(crash: Schedule) returns (done: bool)
      requires Consistent()
      modifies this
      ensures Consistent() && old(history) <= history && world == old(world).(runtime := old(world.runtime).(volumes := world.runtime.volumes))
      ensures done ==> world.runtime.volumes == map v | v in old(world.runtime.volumes) :: {}
      ensures !done ==> exists n :: n >= 5 && crash(n)
      ensures world.runtime.volumes.Keys == old(world.runtime.volumes.Keys)
      ensures forall v :: v in world.runtime.volumes ==> world.runtime.volumes[v] <= old(world.runtime.volumes)[v]
    {
      hide EffectAllowed, HistoryAllowed;
      var pending := world.runtime.volumes.Keys;
      var removed := 0;
      while pending != {}
        invariant Consistent() && old(history) <= history && pending <= world.runtime.volumes.Keys == old(world.runtime.volumes.Keys)
        invariant world == old(world).(runtime := old(world.runtime).(volumes := world.runtime.volumes))
        invariant forall v :: v in world.runtime.volumes && v !in pending ==> world.runtime.volumes[v] == {}
        invariant forall v :: v in world.runtime.volumes ==> world.runtime.volumes[v] <= old(world.runtime.volumes)[v]
        decreases pending
      {
        var v :| v in pending;
        done, removed := EmptyVolume(v, removed, crash);
        if !done { return; }
        pending := pending - {v};
      }
      done := true;
    }
  }

  // ---------- facts used by the methods ----------

  ghost predicate ProofHolds(d: Domain, w: World) { Classifiable(d, w.db.tables) && Preserved(w, Classified(d, w.db.tables)) }

  /** The world after a completed erase. */
  ghost function ErasedWorld(d: Domain, w: World): World {
    if w.erased then w else Truncated(w, Classified(d, w.db.tables).solver).(erased := true)
  }

  predicate RuntimeEmpty(r: Runtime) {
    forall v :: v in r.volumes ==> r.volumes[v] <= if v == "results" then {"sync-imports"} else {}
  }

  /** Either a matching receipt exists already, or nothing of an earlier export is left and the new one proves itself. */
  ghost predicate ReadyToPreserve(d: Domain, w: World, environment: string, scopeRows: seq<Row>, others: Others) {
    && w.db.quiesced && Classifiable(d, w.db.tables) && KeysAllowed(w.db.keys, Classified(d, w.db.tables).configuration)
    && var i := Classified(d, w.db.tables);
       if w.audit.receipt.Some? then Preserved(w, i) else w.audit.archive == None && Exportable(d, w, i, environment, scopeRows, others)
  }

  /** The scratch database is free, the export restores to what it was taken from, and the writers are still stopped afterwards. */
  ghost predicate Exportable(d: Domain, w: World, i: Inventory, environment: string, scopeRows: seq<Row>, others: Others) {
    var before := DigestsOf(w, i.configuration);
    && !w.audit.scratch && d.server.restore(before) == before && d.server.copy(scopeRows) == scopeRows
    && Met(others, 0, w.(audit := ProvedAudit(before, scopeRows, environment))).db.quiesced
  }

  ghost predicate ReadyToErase(d: Domain, w: World) {
    && w.db.quiesced && ProofHolds(d, w) && KeysAllowed(w.db.keys, Classified(d, w.db.tables).configuration)
    && var solver := Classified(d, w.db.tables).solver;
       if w.erased then SolverEmpty(w, solver) else Truncatable(d, solver) && !Restricted(w.db.keys, solver)
  }

  /** Only the runtime and the writers differ. */
  ghost predicate RuntimeOnly(w: World, v: World) { v == w.(runtime := v.runtime, db := w.db.(quiesced := v.db.quiesced)) }

  ghost predicate DatabaseKept(w: World, v: World) { RuntimeOnly(w.(audit := v.audit), v) }

  /** An export step never replaces a complete archive, and a receipt names a proved dump. */
  ghost predicate ExportStep(d: Domain, a: Audit, b: Audit) {
    && a.receipt == None
    && (a.archive.Some? ==> b.archive == a.archive || (a.archive == Some(Partial) && b.archive.Some?))
    && (b.receipt.Some? ==> Proved(d, b.receipt.value))
  }

  lemma ExportAllowed(d: Domain, w: World, audit: Audit)
    requires ExportStep(d, w.audit, audit)
    ensures EffectAllowed(d, w, w.(audit := audit))
  {
  }

  lemma DigestsUnchanged(w: World, v: World, tables: set<string>)
    requires DatabaseKept(w, v)
    ensures DigestsOf(v, tables) == DigestsOf(w, tables)
  {
  }

  lemma ErasedKeepsMarker(d: Domain, w: World)
    ensures ErasedWorld(d, w).runtime == w.runtime
  {
  }

  lemma MarkerIsAllowed(d: Domain, w: World, i: Inventory)
    ensures EffectAllowed(d, w, w.(erased := true))
    ensures Preserved(w.(erased := true), i) == Preserved(w, i) && SolverEmpty(w.(erased := true), i.solver) == SolverEmpty(w, i.solver)
  {
  }

  lemma RuntimeKeepsProof(d: Domain, w: World, v: World)
    requires ProofHolds(d, w) && RuntimeOnly(w, v)
    requires SolverEmpty(w, Classified(d, w.db.tables).solver)
    ensures ProofHolds(d, v) && SolverEmpty(v, Classified(d, v.db.tables).solver)
  {
  }

  lemma TruncationIsAllowed(d: Domain, w: World)
    requires d.configuration !! d.solver && Classifiable(d, w.db.tables) && Preserved(w, Classified(d, w.db.tables)) && !w.erased
    ensures var i := Classified(d, w.db.tables);
            EffectAllowed(d, w, Truncated(w, i.solver)) && Preserved(Truncated(w, i.solver), i) && SolverEmpty(Truncated(w, i.solver), i.solver)
    ensures var v := Truncated(w, Classified(d, w.db.tables).solver);
            v.db.tables == w.db.tables && v.db.keys == w.db.keys && v.db.quiesced == w.db.quiesced && !v.erased
  {
    var i := Classified(d, w.db.tables);
    var v := Truncated(w, i.solver);
    assert DigestsOf(v, i.configuration).tables == DigestsOf(w, i.configuration).tables;
  }

  /** What an erase demands, in full. */
  lemma ReadyToEraseInFull(d: Domain, w: World)
    requires d.configuration !! d.solver
    ensures ReadyToErase(d, w) <==>
              var known := set t | t in w.db.tables && t != Table("drizzle", "__drizzle_migrations") :: t.name;
              var configuration, solver := known * d.configuration, known - d.configuration;
              && w.db.quiesced
              && (forall t :: t in w.db.tables && t != Table("drizzle", "__drizzle_migrations") ==>
                    t.schema == "public" && t.name in d.configuration + d.solver)
              && {"airfoils", "sim_campaigns", "sync_api_settings"} <= configuration
              && (forall k :: k in w.db.keys && k.source in configuration ==> k.target in configuration)
              && w.audit.receipt.Some?
              && var r := w.audit.receipt.value;
                 && r.inventory == Inventory(configuration, solver)
                 && r.configuration.migrations == w.db.migrations && r.configuration.tables.Keys == configuration
                 && (forall t :: t in configuration ==> r.configuration.tables[t] == RowsOf(w, t))
                 && w.audit.archive == Some(Complete(r.artifacts.dump)) && w.audit.scope == Some(r.artifacts.scope)
                 && w.audit.environment == Some(r.artifacts.environment)
                 && (if w.erased then forall t :: t in solver ==> RowsOf(w, t) == []
                     else solver != {} && forall k :: k in w.db.keys && k.target in solver ==> k.source in solver)
  {
    var known := set t | t in w.db.tables && t != Table("drizzle", "__drizzle_migrations") :: t.name;
    var configuration, solver := known * d.configuration, known - d.configuration;
    MigrationsIs();
    if Classifiable(d, w.db.tables) {
      ClassifiedInFull(d, w.db.tables);
    }
    hide RowsOf, Classified, IsMigrations;
    DigestsInFull(w, configuration);
    hide DigestsOf;
  }

  lemma MigrationsIs()
    ensures forall t :: IsMigrations(t) <==> t == Table("drizzle", "__drizzle_migrations")
  {
  }

  lemma ClassifiedInFull(d: Domain, tables: seq<Table>)
    requires Classifiable(d, tables)
    ensures var known := set t | t in tables && t != Table("drizzle", "__drizzle_migrations") :: t.name;
            Classified(d, tables) == Inventory(known * d.configuration, known - d.configuration)
  {
    MigrationsIs();
  }

  lemma DigestsInFull(w: World, tables: set<string>)
    ensures forall x: Digests :: x == DigestsOf(w, tables) <==>
              x.migrations == w.db.migrations && x.tables.Keys == tables && forall t :: t in tables ==> x.tables[t] == RowsOf(w, t)
  {
    hide RowsOf;
    forall x: Digests | x.migrations == w.db.migrations && x.tables.Keys == tables && forall t :: t in tables ==> x.tables[t] == RowsOf(w, t)
      ensures x == DigestsOf(w, tables)
    {
      assert x.tables == DigestsOf(w, tables).tables;
    }
  }

  /** Any leftover file, other than the nested mount point, and any queued work is noticed. */
  lemma RuntimeEmptyExactly(r: Runtime)
    ensures RuntimeEmpty(r) <==> forall v, child :: v in r.volumes && child in r.volumes[v] ==> v == "results" && child == "sync-imports"
  {
  }

  /** Every row of the configuration, and every migration, counts: once one differs from the state the receipt recorded, the erase is
      refused, without the help of any crash or marker. */
  lemma ChangedConfigurationIsRefused(d: Domain, recorded: World, w: World)
    requires w.audit.receipt.Some? && w.db.tables == recorded.db.tables
    requires w.audit.receipt.value.configuration == DigestsOf(recorded, Classified(d, w.db.tables).configuration)
    requires w.db.migrations != recorded.db.migrations
             || exists t :: t in Classified(d, w.db.tables).configuration && RowsOf(w, t) != RowsOf(recorded, t)
    ensures !ReadyToErase(d, w)
  {
    DigestsTell(recorded, w, Classified(d, w.db.tables).configuration);
    hide RowsOf, Classified, DigestsOf;
  }

  /** Preserve, then a change of the configuration by someone else, then erase: refused, and nothing is touched. */
  method EraseAfterChange(d: Domain, w: World, environment: string, scopeRows: seq<Row>, others: Others, crash: Schedule,
                          table: string, rows: seq<Row>) returns (reset: Reset, exit: Exit<Inventory>)
    requires d.configuration !! d.solver && w.audit.receipt == None && ReadyToPreserve(d, w, environment, scopeRows, others)
    requires table in w.db.rows && table in Classified(d, w.db.tables).configuration && rows != w.db.rows[table]
    ensures exit == Refused && reset.world.audit.receipt.Some? && reset.world.erased == w.erased
    ensures reset.world.db.rows == w.db.rows[table := rows]
  {
    hide ReadyToPreserve, ReadyToErase, ErasedWorld, Truncated, EffectAllowed, Classified, DigestsOf, HistoryAllowed;
    StartIsConsistent(d, w);
    var first := new Reset(d, w);
    var proof := first.Preserve(environment, scopeRows, others, _ => false);
    var kept := first.world;
    assert proof.Done? && DatabaseKept(w, kept);
    var changed := kept.(db := kept.db.(rows := kept.db.rows[table := rows]));
    ReceiptRecords(d, w, kept);
    StartIsConsistent(d, changed);
    assert RowsOf(changed, table) != RowsOf(w, table);
    ChangedConfigurationIsRefused(d, w, changed);
    reset := new Reset(d, changed);
    exit := reset.Erase(crash);
  }

  lemma StartIsConsistent(d: Domain, w: World)
    ensures HistoryAllowed(d, [w])
  {
  }

  lemma ReceiptRecords(d: Domain, w: World, kept: World)
    requires ProofHolds(d, kept) && DatabaseKept(w, kept)
    ensures kept.audit.receipt.Some? && kept.db.tables == w.db.tables && kept.db.rows == w.db.rows && kept.erased == w.erased
    ensures kept.audit.receipt.value.configuration == DigestsOf(w, Classified(d, w.db.tables).configuration)
  {
    DigestsUnchanged(w, kept, Classified(d, w.db.tables).configuration);
  }

  /** A second erase is accepted wherever the first was, whether the first completed or crashed after the truncation, and ends
      in the same world. */
  lemma EraseIsIdempotent(d: Domain, w: World)
    requires d.configuration !! d.solver && ReadyToErase(d, w)
    ensures ReadyToErase(d, ErasedWorld(d, w)) && ErasedWorld(d, ErasedWorld(d, w)) == ErasedWorld(d, w)
    ensures var v := Truncated(w, Classified(d, w.db.tables).solver);
            !w.erased ==> ReadyToErase(d, v) && ErasedWorld(d, v) == ErasedWorld(d, w)
  {
    if !w.erased {
      var i := Classified(d, w.db.tables);
      var v := Truncated(w, i.solver);
      TruncationIsAllowed(d, w);
      MarkerIsAllowed(d, v, i);
      assert Truncated(v, i.solver).db.rows == v.db.rows;
    }
  }

  /** An erase that crashed anywhere is finished by running it again, and running it once more changes nothing. */
  method EraseAgain(reset: Reset, crash: Schedule)
    requires reset.Consistent() && reset.domain.configuration !! reset.domain.solver && ReadyToErase(reset.domain, reset.world)
    modifies reset
    ensures reset.Consistent() && reset.world == ErasedWorld(reset.domain, old(reset.world))
  {
    hide ReadyToErase, ErasedWorld, Truncated, Reset.Consistent;
    EraseIsIdempotent(reset.domain, reset.world);
    var first := reset.Erase(crash);
    var second := reset.Erase(_ => false);
    assert second.Done? && reset.world == ErasedWorld(reset.domain, old(reset.world));
    var third := reset.Erase(_ => false);
    assert third.Done?;
  }

  // ---------- whole runs ----------

  datatype Command =
    | PreserveCommand(environment: string, scope: seq<Row>, others: Others)
    | EraseCommand
    | ClearCommand(mountsVerified: bool, others: Others)

  /** Any sequence of commands, each under its own crash schedule. */
  method RunAll(reset: Reset, commands: seq<(Command, Schedule)>)
    requires reset.Consistent() && reset.history == [reset.world] && reset.domain.configuration !! reset.domain.solver
    modifies reset
    ensures reset.Consistent() && reset.history[0] == old(reset.world)
  {
    for n := 0 to |commands|
      invariant reset.Consistent() && |reset.history| > 0 && reset.history[0] == old(reset.world)
    {
      var (command, crash) := commands[n];
      match command
      case PreserveCommand(environment, scope, others) => var _ := reset.Preserve(environment, scope, others, crash);
      case EraseCommand => var _ := reset.Erase(crash);
      case ClearCommand(mountsVerified, others) => var _ := reset.ClearRuntime(mountsVerified, others, crash);
    }
  }

  /** In every state of every allowed history the configuration is the original one. */
  lemma {:induction false} ConfigurationNeverChanges(d: Domain, history: seq<World>, k: nat)
    requires HistoryAllowed(d, history) && k < |history|
    ensures ConfigurationKept(d, history[0], history[k])
    // A receipt that appears during the run was proved: its dump restores to the configuration it records, its target rows come back.
    ensures history[0].audit.receipt == None && history[k].audit.receipt.Some? ==>
              var r := history[k].audit.receipt.value;
              d.server.restore(r.artifacts.dump) == r.configuration && d.server.copy(r.artifacts.scope) == r.artifacts.scope
    ensures Restorable(d, history[0]) ==> Restorable(d, history[k])
    ensures history[0].audit.receipt.Some? ==> history[k].audit.receipt == history[0].audit.receipt
    ensures history[0].audit.archive.Some? && history[0].audit.archive.value.Complete? ==> history[k].audit.archive == history[0].audit.archive
    ensures history[0].erased ==> history[k].erased
  {
    if k > 0 {
      ConfigurationNeverChanges(d, history, k - 1);
      assert EffectAllowed(d, history[k - 1], history[k]);
    }
  }

  /** If a solver row is missing in a later state, then some state before it held a matching proof, and that proof is still
      the receipt and still restores the original configuration. */
  lemma {:induction false} RowsVanishOnlyUnderProof(d: Domain, history: seq<World>, k: nat) returns (proof: nat)
    requires HistoryAllowed(d, history) && k < |history| && history[k].db.rows != history[0].db.rows
    ensures proof < k && ProofHolds(d, history[proof])
    ensures history[proof].audit.receipt.value.configuration.migrations == history[proof].db.migrations
    ensures forall t :: t in Classified(d, history[proof].db.tables).configuration ==>
              t in history[proof].audit.receipt.value.configuration.tables
              && history[proof].audit.receipt.value.configuration.tables[t] == RowsOf(history[proof], t)
    ensures history[k].audit.receipt == history[proof].audit.receipt
  {
    if history[k].db.rows != history[k - 1].db.rows {
      proof := k - 1;
      assert EffectAllowed(d, history[k - 1], history[k]);
    } else {
      proof := RowsVanishOnlyUnderProof(d, history, k - 1);
      assert EffectAllowed(d, history[k - 1], history[k]);
    }
  }
}
