/** Runs over whole schemas: what a request for the wildcard settles for the tables of its schema. */
module SnapshotWildcards {
  import opened Text
  import opened SnapshotRequests
  import opened SnapshotStore
  import opened SnapshotRecorder
  import opened SnapshotSafety
  import opened SnapshotCompletion

  // ---------- the run after a wildcard run ----------

  /** Whether the wrapped generator reported a failure of the schema or of this table. */
  predicate ReportsFailure(st: State, schema: string, table: string) {
    match PickOf(st, schema)
    case Existing(ref) =>
      var e := Deref(st.reported, ref);
      e.Some? && (e.value.globals != [] || table in e.value.tables)
    case Fresh(_) => true
  }

  /** Some run, with whatever came before it, leads here. */
  ghost predicate Reached(st: State) {
    exists init: State, steps: seq<Step> ::
      init.phase == Idle && Runs(false, init, steps) && st == Exec(false, init, steps)
  }

  /** A wildcard run whose goroutines are through and whose updates all succeeded. */
  ghost predicate WildcardRun(st: State, schema: string) {
    Reached(st) && st.phase == Completing && AllFinished(st) && AllStored(st)
    && schema in st.plan && WILDCARD in st.plan[schema]
  }

  lemma ReachedThrough(st: State)
    requires Reached(st) && st.phase == Completing && AllFinished(st)
    ensures Through(st)
  {
    var init: State, steps: seq<Step> :|
      init.phase == Idle && Runs(false, init, steps) && st == Exec(false, init, steps);
    RunInvAlways(false, init, steps);
  }

  /** Its request records, table by table, what was reported. */
  lemma WildcardRecorded(st: State, schema: string, table: string)
    requires WildcardRun(st, schema)
    ensures var r := Latest(st.store, schema, WILDCARD);
            r.Some? && (RecordsFailure(r.value, table) <==> ReportsFailure(st, schema, table))
  {
    ReachedThrough(st);
    var i :| 0 <= i < |st.order| && st.order[i] == schema;
    assert Owns(st, i) && WorkerInv(st, st.workers[i]);
    assert Recorded(st, st.workers[i]);
    assert NoFailure(st);
  }

  /** The requested tables that the next run leaves in its plan. */
  lemma PlanAfterWildcard(st: State, asked: Tables, plan: Tables, schema: string, table: string)
    requires WildcardRun(st, schema) && |RowsOf(st.store, schema)| <= QUERY_LIMIT
    requires IsPlan(false, st.store, asked, plan)
    requires schema in asked && table in asked[schema] && WILDCARD !in asked[schema]
    ensures (schema in plan && table in plan[schema]) <==>
            ReportsFailure(st, schema, table) || LastFails(Read(st.store, schema), table, table)
  {
    var rows := Read(st.store, schema);
    WildcardRecorded(st, schema, table);
    SeenIsLatest(st.store, schema, WILDCARD);
    SeenNaming(st.store, schema, WILDCARD);
    var k: nat :| LastNaming(rows, k, WILDCARD);
    assert LastFails(rows, WILDCARD, table) <==> RecordsFailure(rows[k], table);
    PlanOverRows(st.store, asked, plan, schema, table);
  }

  /** After a wildcard run the next run for a concrete table, from any state with the store it left,
      hands that table over exactly if the wildcard run reported the table or its whole schema as
      failed, or the table's own last request failed. */
  lemma AfterWildcardRun(st: State, idle: State, asked: Tables, plan: Tables, order: seq<string>, works: seq<Step>,
                         err: Option<GoErr<nat>>, heap: seq<Errs>, schema: string, table: string)
    requires WildcardRun(st, schema) && |RowsOf(st.store, schema)| <= QUERY_LIMIT && idle.store == st.store
    requires schema in asked && table in asked[schema] && WILDCARD !in asked[schema]
    requires Enabled(false, idle, Start(asked, None, plan, order))
    requires HandsOver(idle, asked, plan, order, works, err, heap)
    ensures var call := Call(idle, asked, plan, order, works, err, heap);
            (schema in call && table in call[schema]) <==>
            ReportsFailure(st, schema, table) || LastFails(Read(st.store, schema), table, table)
  {
    PlanAfterWildcard(st, asked, plan, schema, table);
    CallIsPlan(idle, asked, plan, order, works, err, heap);
  }

  /** The run reaches the wrapped generator, after the steps `works` of its goroutines. */
  ghost predicate HandsOver(st: State, asked: Tables, plan: Tables, order: seq<string>, works: seq<Step>,
                            err: Option<GoErr<nat>>, heap: seq<Errs>)
    requires Enabled(false, st, Start(asked, None, plan, order))
  {
    var started := Apply(false, st, Start(asked, None, plan, order));
    && started.phase == Marking && Runs(false, started, works) && (forall step :: step in works ==> step.Work?)
    && Enabled(false, Exec(false, started, works), Generate(err, heap))
  }

  /** What it hands over. */
  ghost function Call(st: State, asked: Tables, plan: Tables, order: seq<string>, works: seq<Step>,
                      err: Option<GoErr<nat>>, heap: seq<Errs>): Tables
    requires Enabled(false, st, Start(asked, None, plan, order)) && HandsOver(st, asked, plan, order, works, err, heap)
  {
    var through := Exec(false, Apply(false, st, Start(asked, None, plan, order)), works);
    var calls := Apply(false, through, Generate(err, heap)).calls;
    calls[|calls| - 1]
  }

  lemma CallIsPlan(st: State, asked: Tables, plan: Tables, order: seq<string>, works: seq<Step>,
                   err: Option<GoErr<nat>>, heap: seq<Errs>)
    requires Enabled(false, st, Start(asked, None, plan, order)) && HandsOver(st, asked, plan, order, works, err, heap)
    ensures Call(st, asked, plan, order, works, err, heap) == plan
  {
    WorkKeepsPlan(Apply(false, st, Start(asked, None, plan, order)), works);
  }

  /** A generator that failed as a whole reports every table; one that did not fail, none. */
  lemma WholeOrNothing(st: State, schema: string, table: string)
    ensures st.genErr == None ==> !ReportsFailure(st, schema, table)
    ensures st.genErr.Some? && NoPointers(st.genErr.value) ==> ReportsFailure(st, schema, table)
  {
    if st.genErr.Some? {
      NothingFound(st.genErr.value);
    }
  }

  // ---------- for ever ----------

  /** The last wildcard request read is clean, the table's own has not failed, and neither of the
      two is in work. */
  ghost predicate Covered(st: State, schema: string, table: string) {
    && Clean(st.store, schema, WILDCARD) && !FailedFor(Seen(st.store, schema, table), table)
    && NotInWork(st, schema, table) && NotInWork(st, schema, WILDCARD)
  }

  /** A clean wildcard request is replaced by nothing. */
  lemma CleanWildcard(store: Store, schema: string, entry: string, table: string)
    requires Clean(store, schema, WILDCARD) && !FailedFor(Seen(store, schema, table), table)
    ensures !Yields(store, schema, entry, table)
  {
    var errs := Seen(store, schema, WILDCARD).value.errors;
    assert FailedTables(errs) == {};
  }

  lemma CoveredPlan(store: Store, asked: Tables, plan: Tables, schema: string, table: string)
    requires Clean(store, schema, WILDCARD) && !FailedFor(Seen(store, schema, table), table)
    requires IsPlan(false, store, asked, plan)
    ensures !(schema in plan && table in plan[schema])
  {
    PlanMember(store, asked, plan, schema, table);
    if schema in asked {
      forall i | 0 <= i < |asked[schema]| ensures !Yields(store, schema, asked[schema][i], table) {
        CleanWildcard(store, schema, asked[schema][i], table);
      }
    }
  }

  lemma CoveredKept(st: State, step: Step, schema: string, table: string)
    requires Shape(st) && Enabled(false, st, step) && Covered(st, schema, table)
    ensures Covered(Apply(false, st, step), schema, table)
  {
    match step
    case Work(i, outcome, text) =>
      WorkPassesBy(st, i, outcome, text, schema, table);
      WorkPassesBy(st, i, outcome, text, schema, WILDCARD);
    case Start(asked, readError, plan, order) =>
      if readError.None? {
        CoveredPlan(st.store, asked, plan, schema, table);
        CoveredPlan(st.store, asked, plan, schema, WILDCARD);
      }
    case _ =>
  }

  /** Then no later run hands over the table or the wildcard again, whatever it asks for, wildcards
      included. */
  lemma {:induction false} CoveredForEver(st: State, n: nat, steps: seq<Step>, schema: string, table: string)
    requires Shape(st) && Runs(false, st, steps) && Covered(st, schema, table)
    requires n <= |st.calls| && NotHandedSince(st, n, schema, table) && NotHandedSince(st, n, schema, WILDCARD)
    ensures var end := Exec(false, st, steps);
            Covered(end, schema, table)
            && NotHandedSince(end, n, schema, table) && NotHandedSince(end, n, schema, WILDCARD)
    decreases |steps|
  {
    if steps == [] {
    } else {
      ShapeKept(false, st, steps[0]);
      CoveredKept(st, steps[0], schema, table);
      NotHandedOn(st, steps[0], n, schema, table);
      NotHandedOn(st, steps[0], n, schema, WILDCARD);
      CoveredForEver(Apply(false, st, steps[0]), n, steps[1..], schema, table);
    }
  }

  /** The last wildcard request read records a failure of the table, and none is in work. */
  ghost predicate WildcardFailed(st: State, schema: string, table: string) {
    var r := Seen(st.store, schema, WILDCARD);
    r.Some? && RecordsFailure(r.value, table) && NotInWork(st, schema, WILDCARD)
  }

  lemma WildcardFailedKept(st: State, step: Step, schema: string, table: string)
    requires Shape(st) && Enabled(false, st, step) && AsksConcretely(step) && WildcardFailed(st, schema, table)
    ensures WildcardFailed(Apply(false, st, step), schema, table)
  {
    match step
    case Work(i, outcome, text) => WorkPassesBy(st, i, outcome, text, schema, WILDCARD);
    case Start(asked, readError, plan, order) =>
      if readError.None? {
        PlanMember(st.store, asked, plan, schema, WILDCARD);
      }
    case _ =>
  }

  lemma {:induction false} WildcardFailedForEver(st: State, steps: seq<Step>, schema: string, table: string)
    requires Shape(st) && Runs(false, st, steps) && (forall step :: step in steps ==> AsksConcretely(step))
    requires WildcardFailed(st, schema, table)
    ensures WildcardFailed(Exec(false, st, steps), schema, table)
    decreases |steps|
  {
    if steps == [] {
    } else {
      ShapeKept(false, st, steps[0]);
      WildcardFailedKept(st, steps[0], schema, table);
      WildcardFailedForEver(Apply(false, st, steps[0]), steps[1..], schema, table);
    }
  }

  /** As long as nobody asks for the wildcard again, every run that asks for a table it failed for
      hands that table over, however often it has completed on its own since. */
  lemma FailedWildcardRepeats(st: State, steps: seq<Step>, asked: Tables, plan: Tables, order: seq<string>,
                              works: seq<Step>, err: Option<GoErr<nat>>, heap: seq<Errs>, schema: string, table: string)
    requires Shape(st) && Runs(false, st, steps) && (forall step :: step in steps ==> AsksConcretely(step))
    requires WildcardFailed(st, schema, table)
    requires schema in asked && table in asked[schema] && table != WILDCARD
    requires Enabled(false, Exec(false, st, steps), Start(asked, None, plan, order))
    requires HandsOver(Exec(false, st, steps), asked, plan, order, works, err, heap)
    ensures var call := Call(Exec(false, st, steps), asked, plan, order, works, err, heap);
            schema in call && table in call[schema]
  {
    var later := Exec(false, st, steps);
    var rows := Read(later.store, schema);
    WildcardFailedForEver(st, steps, schema, table);
    SeenNaming(later.store, schema, WILDCARD);
    var k: nat :| LastNaming(rows, k, WILDCARD);
    assert LastFails(rows, WILDCARD, table);
    PlanOverRows(later.store, asked, plan, schema, table);
    CallIsPlan(later, asked, plan, order, works, err, heap);
  }
}
