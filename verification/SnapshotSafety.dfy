/** What repeated, non-repeatable runs over concrete tables guarantee, whatever the
    interleaving, the failures and the points where the process stops. */
module SnapshotSafety {
  import opened Text
  import opened SnapshotRequests
  import opened SnapshotStore
  import opened SnapshotRecorder

  /** The most recent request for the table that a read returns completed without an error for it. */
  predicate Clean(store: Store, schema: string, table: string) {
    var r := Seen(store, schema, table);
    r.Some? && r.value.status == Completed && !r.value.HasFailedForTable(table)
  }

  /** No goroutine still to run in the in-progress phase is for a clean table. */
  ghost predicate Guarded(st: State) {
    st.phase == Marking ==>
      forall i, t :: 0 <= i < |st.workers| && t in st.workers[i].tables ==> !Clean(st.store, st.workers[i].schema, t)
  }

  ghost predicate OnlyConcrete(st: State) {
    NoWildcardRow(st.store)
    && (st.phase != Idle ==> forall i :: 0 <= i < |st.workers| ==> WILDCARD !in st.workers[i].tables)
  }

  ghost predicate Inv(st: State) {
    Shape(st) && Guarded(st) && OnlyConcrete(st)
  }

  ghost predicate AsksConcretely(step: Step) {
    step.Start? ==> Concrete(step.asked)
  }

  /** The only ways a step changes the store. */
  ghost predicate StoreStep(st: State, next: State, step: Step) {
    || next.store == st.store
    || (step.Work? && step.i < |st.workers| && st.phase == Marking && st.workers[step.i].pc == ToCreate
        && next.store == st.store + [Inserted(st.workers[step.i].Record(st.heap))])
    || (step.Work? && step.i < |st.workers| && next.store == Update(st.store, st.workers[step.i].Record(st.heap)))
  }

  lemma StoreSteps(repeatable: bool, st: State, step: Step)
    requires Enabled(repeatable, st, step)
    ensures step.Work? ==> step.i < |st.workers|
    ensures StoreStep(st, Apply(repeatable, st, step), step)
  {
  }

  lemma CleanUpdate(store: Store, row: Row, schema: string, table: string)
    ensures Clean(store, schema, table) ==> Clean(Update(store, row), schema, table)
    ensures (row.status != Completed || row.schema != schema) && Clean(Update(store, row), schema, table)
            ==> Clean(store, schema, table)
  {
    SeenUpdate(store, row, schema, table);
    SeenNamesTable(store, schema, table);
  }

  lemma CleanAppend(store: Store, row: Row, schema: string, table: string)
    requires row.status != Completed
    ensures Clean(store + [row], schema, table) ==> Clean(store, schema, table)
    ensures Clean(store, schema, table) && !(row.schema == schema && table in row.tables)
            ==> Clean(store + [row], schema, table)
  {
    SeenAppend(store, row, schema, table);
  }

  lemma CleanKept(repeatable: bool, st: State, step: Step, schema: string, table: string)
    requires Shape(st) && Guarded(st) && Enabled(repeatable, st, step)
    requires Clean(st.store, schema, table)
    ensures Clean(Apply(repeatable, st, step).store, schema, table)
  {
    StoreSteps(repeatable, st, step);
    if step.Work? {
      var w := st.workers[step.i];
      assert Owns(st, step.i);
      CleanUpdate(st.store, w.Record(st.heap), schema, table);
      if st.phase == Marking {
        CleanAppend(st.store, Inserted(w.Record(st.heap)), schema, table);
      }
    }
  }

  /** What a worker of the in-progress phase does to the store makes no table clean. */
  lemma MarkingNotClean(st: State, i: nat, outcome: Outcome, schema: string, table: string)
    requires Shape(st) && st.phase == Marking && i < |st.workers|
    requires !Clean(st.store, schema, table)
    ensures !Clean(MarkingStep(st, i, outcome).store, schema, table)
  {
    var row := st.workers[i].Record(st.heap);
    assert Owns(st, i);
    CleanUpdate(st.store, row, schema, table);
    CleanAppend(st.store, Inserted(row), schema, table);
  }

  lemma MarkingGuarded(st: State, i: nat, outcome: Outcome)
    requires Shape(st) && Guarded(st) && st.phase == Marking && i < |st.workers|
    ensures Guarded(MarkingStep(st, i, outcome))
  {
    var next := MarkingStep(st, i, outcome);
    forall j, t | 0 <= j < |next.workers| && t in next.workers[j].tables
      ensures !Clean(next.store, next.workers[j].schema, t)
    {
      assert st.workers[j].tables == next.workers[j].tables;
      MarkingNotClean(st, i, outcome, st.workers[j].schema, t);
    }
  }

  lemma StartGuarded(st: State, asked: Tables, plan: Tables, order: seq<string>)
    requires OnlyConcrete(st) && Concrete(asked)
    requires Enabled(false, st, Start(asked, None, plan, order))
    ensures var next := Apply(false, st, Start(asked, None, plan, order)); Guarded(next) && OnlyConcrete(next)
  {
    var next := Apply(false, st, Start(asked, None, plan, order));
    if next.phase == Marking {
      forall i, t | 0 <= i < |next.workers| && t in next.workers[i].tables
        ensures !Clean(next.store, next.workers[i].schema, t) && t != WILDCARD
      {
        assert order[i] in order;
        PlanExact(st.store, asked, plan, order[i], t);
      }
    }
  }

  /** A goroutine writes rows of its own schema and tables alone. */
  lemma WorkOnOwn(st: State, i: nat, outcome: Outcome, text: string)
    requires Shape(st) && Enabled(false, st, Work(i, outcome, text))
    ensures var row, next := st.workers[i].Record(st.heap), Apply(false, st, Work(i, outcome, text));
            && row.schema in st.plan && row.tables == st.plan[row.schema]
            && next.phase == st.phase && next.plan == st.plan
            && (next.store == st.store || next.store == st.store + [Inserted(row)]
                || next.store == Update(st.store, row))
  {
    StoreSteps(false, st, Work(i, outcome, text));
    assert Owns(st, i);
  }

  lemma WorkConcrete(st: State, i: nat, outcome: Outcome, text: string)
    requires Inv(st) && Enabled(false, st, Work(i, outcome, text))
    ensures OnlyConcrete(Apply(false, st, Work(i, outcome, text)))
  {
    var w, next := st.workers[i], Apply(false, st, Work(i, outcome, text));
    WorkOnOwn(st, i, outcome, text);
    assert forall r :: r in next.store ==> r in next.store[..|st.store|] || r == Inserted(w.Record(st.heap));
    forall j | 0 <= j < |next.workers| ensures WILDCARD !in next.workers[j].tables {
      assert next.workers[j].tables == st.workers[j].tables;
    }
  }

  lemma WorkKept(st: State, i: nat, outcome: Outcome, text: string)
    requires Inv(st) && Enabled(false, st, Work(i, outcome, text))
    ensures var next := Apply(false, st, Work(i, outcome, text)); Guarded(next) && OnlyConcrete(next)
  {
    WorkConcrete(st, i, outcome, text);
    if st.phase == Marking {
      MarkingGuarded(st, i, outcome);
    }
  }

  lemma InvKept(st: State, step: Step)
    requires Inv(st) && Enabled(false, st, step) && AsksConcretely(step)
    ensures Inv(Apply(false, st, step))
  {
    ShapeKept(false, st, step);
    match step
    case Work(i, outcome, text) => WorkKept(st, i, outcome, text);
    case Start(asked, readError, plan, order) =>
      if readError.None? { StartGuarded(st, asked, plan, order); }
    case _ =>
  }

  // ---------- whole behaviours ----------

  ghost predicate Runs(repeatable: bool, st: State, steps: seq<Step>)
    decreases |steps|
  {
    steps == [] || (Enabled(repeatable, st, steps[0]) && Runs(repeatable, Apply(repeatable, st, steps[0]), steps[1..]))
  }

  ghost function Exec(repeatable: bool, st: State, steps: seq<Step>): State
    requires Runs(repeatable, st, steps)
    decreases |steps|
  {
    if steps == [] then st else Exec(repeatable, Apply(repeatable, st, steps[0]), steps[1..])
  }

  /** Any store without a wildcard request, however earlier runs left it. */
  ghost predicate Initial(st: State) {
    st.phase == Idle && NoWildcardRow(st.store) && st.calls == []
  }

  lemma {:induction false} InvAlways(st: State, steps: seq<Step>)
    requires Inv(st) && Runs(false, st, steps) && forall step :: step in steps ==> AsksConcretely(step)
    ensures Inv(Exec(false, st, steps))
    decreases |steps|
  {
    if steps == [] {
    } else {
      InvKept(st, steps[0]);
      InvAlways(Apply(false, st, steps[0]), steps[1..]);
    }
  }

  /** The calls made after the first `n` never hand the table over. */
  ghost predicate NotHandedSince(st: State, n: nat, schema: string, table: string) {
    forall k :: n <= k < |st.calls| ==> !(schema in st.calls[k] && table in st.calls[k][schema])
  }

  lemma NotHandedKept(st: State, step: Step, n: nat, schema: string, table: string)
    requires Inv(st) && Enabled(false, st, step) && n <= |st.calls|
    requires Clean(st.store, schema, table) && NotHandedSince(st, n, schema, table)
    ensures n <= |Apply(false, st, step).calls| && NotHandedSince(Apply(false, st, step), n, schema, table)
  {
    if step.Generate? && schema in st.plan {
      var i :| 0 <= i < |st.order| && st.order[i] == schema;
      assert Owns(st, i);
    }
  }

  /** Once a table is clean it stays clean, and it is never handed to the wrapped generator again. */
  lemma {:induction false} NeverHandedAgainFrom(st: State, n: nat, steps: seq<Step>, schema: string, table: string)
    requires Inv(st) && Runs(false, st, steps) && forall step :: step in steps ==> AsksConcretely(step)
    requires Clean(st.store, schema, table) && n <= |st.calls| && NotHandedSince(st, n, schema, table)
    ensures Clean(Exec(false, st, steps).store, schema, table)
    ensures NotHandedSince(Exec(false, st, steps), n, schema, table)
    decreases |steps|
  {
    if steps == [] {
    } else {
      InvKept(st, steps[0]);
      CleanKept(false, st, steps[0], schema, table);
      NotHandedKept(st, steps[0], n, schema, table);
      NeverHandedAgainFrom(Apply(false, st, steps[0]), n, steps[1..], schema, table);
    }
  }

  /** The safety theorem over whole behaviours: `before` is any history, `after` any continuation. */
  lemma NeverHandedAgain(init: State, before: seq<Step>, after: seq<Step>, schema: string, table: string)
    requires Initial(init) && Runs(false, init, before) && Runs(false, Exec(false, init, before), after)
    requires forall step :: step in before + after ==> AsksConcretely(step)
    requires Clean(Exec(false, init, before).store, schema, table)
    ensures var mid, end := Exec(false, init, before), Exec(false, Exec(false, init, before), after);
            Clean(end.store, schema, table) && NotHandedSince(end, |mid.calls|, schema, table)
  {
    assert forall step :: step in before ==> step in before + after;
    assert forall step :: step in after ==> step in before + after;
    InvAlways(init, before);
    var mid := Exec(false, init, before);
    NeverHandedAgainFrom(mid, |mid.calls|, after, schema, table);
  }

  /** Inside one run the plan stays as the filter made it. */
  lemma {:induction false} WorkKeepsPlan(st: State, works: seq<Step>)
    requires st.phase == Marking && Runs(false, st, works) && forall step :: step in works ==> step.Work?
    ensures var next := Exec(false, st, works); next.plan == st.plan && next.calls == st.calls && next.phase == Marking
    decreases |works|
  {
    if works == [] {
    } else {
      WorkKeepsPlan(Apply(false, st, works[0]), works[1..]);
    }
  }

  /** A requested table is handed over as soon as this run's in-progress phase is through if a read
      returns no request for it or one that failed for it as the most recent; and nothing else is. */
  lemma HandedAgain(st: State, asked: Tables, plan: Tables, order: seq<string>, works: seq<Step>,
                    err: Option<GoErr<nat>>, heap: seq<Errs>, schema: string, table: string)
    requires OnlyConcrete(st) && Concrete(asked)
    requires Enabled(false, st, Start(asked, None, plan, order))
    requires var started := Apply(false, st, Start(asked, None, plan, order));
             started.phase == Marking && Runs(false, started, works)
             && Enabled(false, Exec(false, started, works), Generate(err, heap))
    requires forall step :: step in works ==> step.Work?
    ensures var through := Exec(false, Apply(false, st, Start(asked, None, plan, order)), works);
            var calls := Apply(false, through, Generate(err, heap)).calls;
            |calls| == |st.calls| + 1
            && ((schema in calls[|st.calls|] && table in calls[|st.calls|][schema]) <==>
                (schema in asked && table in asked[schema]
                 && (Seen(st.store, schema, table).None? || FailedFor(Seen(st.store, schema, table), table))))
  {
    WorkKeepsPlan(Apply(false, st, Start(asked, None, plan, order)), works);
    PlanExact(st.store, asked, plan, schema, table);
  }

  /** With nothing left to do the run returns nil at once: no call, no request. */
  lemma NothingLeft(st: State, asked: Tables, plan: Tables, order: seq<string>)
    requires OnlyConcrete(st) && Concrete(asked)
    requires Enabled(false, st, Start(asked, None, plan, order))
    ensures var next := Apply(false, st, Start(asked, None, plan, order));
            next.phase == Idle <==>
            (forall s, t :: s in asked && t in asked[s] ==>
               Seen(st.store, s, t).Some? && !FailedFor(Seen(st.store, s, t), t))
    ensures var next := Apply(false, st, Start(asked, None, plan, order));
            next.phase == Idle ==> next.calls == st.calls && next.store == st.store && next.result == Some(Nil)
  {
    forall s, t ensures (s in plan && t in plan[s]) <==>
                        (s in asked && t in asked[s]
                         && (Seen(st.store, s, t).None? || FailedFor(Seen(st.store, s, t), t))) {
      PlanExact(st.store, asked, plan, s, t);
    }
    if HasTables(plan) {
      var s :| s in plan && plan[s] != [];
      assert plan[s][0] in plan[s];
    }
  }

  // ---------- requests that were left open ----------

  /** A request that a crash or a failed final update left open: a read still returns it as the most
      recent one for the table, and no goroutine is at work on the table. */
  ghost predicate LeftOpen(st: State, schema: string, table: string) {
    var r := Seen(st.store, schema, table);
    && r.Some? && r.value.status != Completed
    && NotInWork(st, schema, table)
  }

  /** A worker's update and insertion miss every table that is not the worker's. */
  lemma OthersSeen(store: Store, row: Row, schema: string, table: string)
    requires !(row.schema == schema && table in row.tables)
    ensures Seen(Update(store, row), schema, table) == Seen(store, schema, table)
    ensures Seen(store + [Inserted(row)], schema, table) == Seen(store, schema, table)
  {
    SeenUpdate(store, row, schema, table);
    SeenNamesTable(store, schema, table);
    SeenAppend(store, Inserted(row), schema, table);
  }

  ghost predicate NotInWork(st: State, schema: string, table: string) {
    st.phase != Idle ==> !(schema in st.plan && table in st.plan[schema])
  }

  /** The goroutines of others leave the last request for the table as it is. */
  lemma WorkPassesBy(st: State, i: nat, outcome: Outcome, text: string, schema: string, table: string)
    requires Shape(st) && Enabled(false, st, Work(i, outcome, text)) && NotInWork(st, schema, table)
    ensures var next := Apply(false, st, Work(i, outcome, text));
            Seen(next.store, schema, table) == Seen(st.store, schema, table) && NotInWork(next, schema, table)
  {
    WorkOnOwn(st, i, outcome, text);
    OthersSeen(st.store, st.workers[i].Record(st.heap), schema, table);
  }

  lemma WorkLeavesOpen(st: State, i: nat, outcome: Outcome, text: string, schema: string, table: string)
    requires Inv(st) && Enabled(false, st, Work(i, outcome, text)) && LeftOpen(st, schema, table)
    ensures LeftOpen(Apply(false, st, Work(i, outcome, text)), schema, table)
  {
    WorkPassesBy(st, i, outcome, text, schema, table);
  }

  lemma LeftOpenKept(st: State, step: Step, schema: string, table: string)
    requires Inv(st) && Enabled(false, st, step) && AsksConcretely(step) && LeftOpen(st, schema, table)
    ensures LeftOpen(Apply(false, st, step), schema, table)
  {
    match step
    case Work(i, outcome, text) => WorkLeavesOpen(st, i, outcome, text, schema, table);
    case Start(asked, readError, plan, order) =>
      if readError.None? {
        PlanExact(st.store, asked, plan, schema, table);
      }
    case _ =>
  }

  lemma NotHandedOn(st: State, step: Step, n: nat, schema: string, table: string)
    requires Enabled(false, st, step) && n <= |st.calls|
    requires NotInWork(st, schema, table) && NotHandedSince(st, n, schema, table)
    ensures n <= |Apply(false, st, step).calls| && NotHandedSince(Apply(false, st, step), n, schema, table)
  {
  }

  lemma {:induction false} LeftOpenForEver(st: State, n: nat, steps: seq<Step>, schema: string, table: string)
    requires Inv(st) && Runs(false, st, steps) && forall step :: step in steps ==> AsksConcretely(step)
    requires LeftOpen(st, schema, table) && n <= |st.calls| && NotHandedSince(st, n, schema, table)
    ensures LeftOpen(Exec(false, st, steps), schema, table)
    ensures NotHandedSince(Exec(false, st, steps), n, schema, table)
    decreases |steps|
  {
    if steps == [] {
    } else {
      InvKept(st, steps[0]);
      LeftOpenKept(st, steps[0], schema, table);
      NotHandedOn(st, steps[0], n, schema, table);
      LeftOpenForEver(Apply(false, st, steps[0]), n, steps[1..], schema, table);
    }
  }

  /** A table whose most recent request was left open is lost: no later run hands it over again, and
      none completes its request. */
  lemma NeverRetried(init: State, before: seq<Step>, after: seq<Step>, schema: string, table: string)
    requires Initial(init) && Runs(false, init, before) && Runs(false, Exec(false, init, before), after)
    requires forall step :: step in before + after ==> AsksConcretely(step)
    requires LeftOpen(Exec(false, init, before), schema, table)
    ensures var mid, end := Exec(false, init, before), Exec(false, Exec(false, init, before), after);
            LeftOpen(end, schema, table) && NotHandedSince(end, |mid.calls|, schema, table)
  {
    assert forall step :: step in before ==> step in before + after;
    assert forall step :: step in after ==> step in before + after;
    InvAlways(init, before);
    var mid := Exec(false, init, before);
    LeftOpenForEver(mid, |mid.calls|, after, schema, table);
  }

  /** A run that asks only for such tables does nothing, and reports success. */
  lemma OnlyOpenIsNothing(st: State, asked: Tables, plan: Tables, order: seq<string>)
    requires OnlyConcrete(st) && Concrete(asked)
    requires Enabled(false, st, Start(asked, None, plan, order))
    requires forall s, t :: s in asked && t in asked[s] ==> LeftOpen(st, s, t)
    ensures var next := Apply(false, st, Start(asked, None, plan, order));
            next.phase == Idle && next.result == Some(Nil) && next.calls == st.calls && next.store == st.store
  {
    NothingLeft(st, asked, plan, order);
  }
}
