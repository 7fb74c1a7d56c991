/**
 * `ensureDatabaseSetup` of src/app.js: a module-level handle that is created
 * by the first call, shared by every later call, and settles either to a
 * completed setup or, when any store statement throws, to a caught `null`
 * that is never re-raised and never retried. The setup itself is the table
 * creation followed by one upsert per seed record.
 */
module AppSetup {
  import opened ProjectData
  import opened ProjectStore

  /** `seedProjects`: the canonical rows, with distinct slugs. */
  const SeedProjects: seq<Seed> := [
    Seed("qibla-compass-app",
         "Qibla Direction Recommender App",
         "Built a Flutter app that recommends Qibla direction and stores app data in Firebase. The related journal was published in SINTA 3.",
         ["Flutter", "Dart", "Firebase"]),
    Seed("flight-booking-app",
         "Flight Booking App",
         "Developed a full stack mobile app for airplane ticket and seat booking with Firebase integration.",
         ["Flutter", "Dart", "Firebase"])
  ]

  /**
   * The value of `dbReadyPromise`: not yet created, settled after a setup
   * that ran to the end, or settled to the caught `null`.
   */
  datatype SetupState = NotStarted | Done | Failed

  /**
   * Which store statement of a setup run throws, if any: statement 0 is the
   * `CREATE TABLE IF NOT EXISTS`, statement k >= 1 the upsert of the k-th seed.
   */
  datatype Fault = NoFault | FailAt(statement: nat)

  /** The fault stops the run before its end. */
  predicate Interrupts(fault: Fault) {
    fault.FailAt? && fault.statement <= |SeedProjects|
  }

  /**
   * One setup run from store `st`. The statements are not in a transaction,
   * so a failing upsert leaves the seeds before it applied.
   */
  function RunSetup(st: Store, fault: Fault): (r: (SetupState, Store))
    ensures r.0 != NotStarted
    ensures r.0 == Failed <==> Interrupts(fault)
    ensures r.0 == Done ==> r.1 == SeedAll(st, SeedProjects)
    ensures fault == FailAt(0) ==> r == (Failed, st)
    ensures Interrupts(fault) && fault.statement >= 1 ==>
      r.1 == SeedAll(st, SeedProjects[..fault.statement - 1])
  {
    if fault == FailAt(0) then
      assert SeedProjects[..0] == [];
      (Failed, st)
    else if Interrupts(fault) then (Failed, SeedAll(st, SeedProjects[..fault.statement - 1]))
    else (Done, SeedAll(st, SeedProjects))
  }

  /** `ensureDatabaseSetup` on the handle's state: only the first call runs the setup. */
  function Ensure(state: SetupState, st: Store, fault: Fault): (r: (SetupState, Store))
    ensures r.0 != NotStarted
    ensures state != NotStarted ==> r == (state, st)
  {
    if state == NotStarted then RunSetup(st, fault) else (state, st)
  }

  /**
   * Once the handle is set, every later call yields the same outcome and
   * leaves the store alone, whatever the store would do this time: a failure
   * is captured once and never retried or re-raised.
   */
  lemma EnsureRunsOnce(state: SetupState, st: Store, first: Fault, later: Fault)
    ensures Ensure(state, st, first).0 != NotStarted
    ensures state != NotStarted ==> Ensure(state, st, first) == (state, st)
    ensures var (s1, st1) := Ensure(state, st, first);
      Ensure(s1, st1, later) == (s1, st1)
  {
  }

  /** Whatever happens, the table stays well formed and no existing row is renumbered or renamed. */
  lemma RunSetupKeepsRows(st: Store, fault: Fault)
    requires ValidStore(st)
    ensures var r := RunSetup(st, fault).1;
      && ValidStore(r)
      && |r.rows| >= |st.rows|
      && forall i :: 0 <= i < |st.rows| ==> r.rows[i].id == st.rows[i].id && r.rows[i].slug == st.rows[i].slug
  {
    var n := if Interrupts(fault) && fault.statement > 0 then fault.statement - 1 else if Interrupts(fault) then 0 else |SeedProjects|;
    assert RunSetup(st, fault).1 == SeedAll(st, SeedProjects[..n]);
    SeedAllKeepsValid(st, SeedProjects[..n]);
    SeedAllKeepsIdentity(st, SeedProjects[..n]);
  }

  /**
   * After a setup that completed, every seed slug is stored in exactly one
   * row, and that row holds the seed's name, description and tech stack.
   */
  lemma CompletedSetupInstallsSeeds(st: Store, fault: Fault, j: nat)
    requires ValidStore(st) && j < |SeedProjects|
    requires RunSetup(st, fault).0 == Done
    ensures var r := RunSetup(st, fault).1;
      exists i :: 0 <= i < |r.rows| && r.rows[i].slug == SeedProjects[j].slug &&
        HoldsSeed(r.rows[i], SeedProjects[j]) &&
        forall i' :: 0 <= i' < |r.rows| && r.rows[i'].slug == SeedProjects[j].slug ==> i' == i
  {
    LastSeedOfDistinct(SeedProjects, j);
    SeedAllPlacesEverySeed(st, SeedProjects, j);
  }

  /**
   * A completed setup run again (the next process start) leaves the table
   * exactly as it was: the setup is idempotent across restarts.
   */
  lemma SetupIdempotentAcrossRestarts(st: Store, first: Fault, again: Fault)
    requires ValidStore(st)
    requires RunSetup(st, first).0 == Done && RunSetup(RunSetup(st, first).1, again).0 == Done
    ensures RunSetup(RunSetup(st, first).1, again).1 == RunSetup(st, first).1
  {
    SeedAllIdempotent(st, SeedProjects);
  }

  /** The holder of `dbReadyPromise`, next to the table the pool writes to. */
  class SetupGuard {
    var state: SetupState
    const table: ProjectTable

    predicate Valid()
      reads this, table
    {
      table.Valid()
    }

    constructor (table: ProjectTable)
      requires table.Valid()
      ensures Valid() && this.table == table && state == NotStarted
    {
      this.table := table;
      state := NotStarted;
    }

    /**
     * `ensureDatabaseSetup()`: returns the shared outcome; the first call
     * creates the table and upserts the seeds one by one, stopping at the
     * first statement that throws.
     */
    method EnsureDatabaseSetup(fault: Fault) returns (outcome: SetupState)
      requires Valid()
      modifies this, table
      ensures Valid() && outcome == state && outcome != NotStarted
      ensures (state, table.State()) == Ensure(old(state), old(table.State()), fault)
    {
      if state != NotStarted {
        return state;
      }
      if fault == FailAt(0) {
        state := Failed;
        return state;
      }
      ghost var start := table.State();
      var i := 0;
      while i < |SeedProjects|
        invariant 0 <= i <= |SeedProjects|
        invariant table.Valid() && state == NotStarted
        invariant table.State() == SeedAll(start, SeedProjects[..i])
        invariant fault.FailAt? ==> fault.statement > i
      {
        if fault == FailAt(i + 1) {
          state := Failed;
          return state;
        }
        assert SeedProjects[..i + 1][..i] == SeedProjects[..i];
        table.Upsert(SeedProjects[i]);
        i := i + 1;
      }
      assert SeedProjects[..i] == SeedProjects;
      state := Done;
      outcome := state;
    }
  }
}
