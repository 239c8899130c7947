/** The in-progress phase: what the store holds when the wrapped generator is called, and what a run
    that does not get there returns. */
module SnapshotMarking {
  import opened Text
  import opened SnapshotRequests
  import opened SnapshotStore
  import opened SnapshotRecorder
  import opened SnapshotSafety

  /** The latest request for each of the worker's tables is the worker's own, and stands at `status`. */
  ghost predicate StandsAt(store: Store, w: Worker, status: Status) {
    forall t :: t in w.tables ==> Latest(store, w.schema, t) == Some(Row(w.schema, w.tables, status, None))
  }

  ghost predicate Marked(st: State, w: Worker) {
    match w.pc
    case ToCreate => true
    case ToMark => StandsAt(st.store, w, Requested)
    case ToUpdate => StandsAt(st.store, w, Requested) && w.status == InProgress
    case _ => st.firstErr == None ==> StandsAt(st.store, w, InProgress)
  }

  ghost predicate MarkedInv(st: State) {
    Shape(st) && (st.phase == Marking ==> forall i :: 0 <= i < |st.workers| ==> Marked(st, st.workers[i]))
  }

  /** A row of another schema is out of the way. */
  lemma OthersStand(store: Store, row: Row, w: Worker, status: Status)
    requires StandsAt(store, w, status) && row.schema != w.schema
    ensures StandsAt(Update(store, row), w, status) && StandsAt(store + [row], w, status)
  {
    forall t | t in w.tables
      ensures Latest(Update(store, row), w.schema, t) == Latest(store, w.schema, t)
      ensures Latest(store + [row], w.schema, t) == Latest(store, w.schema, t)
    {
      LatestUpdate(store, row, w.schema, t);
      LatestAppend(store, row, w.schema, t);
      LatestNamesTable(store, w.schema, t);
    }
  }

  lemma CreatedStands(store: Store, w: Worker, row: Row)
    requires row.schema == w.schema && row.tables == w.tables
    ensures StandsAt(store + [Inserted(row)], w, Requested)
  {
    forall t | t in w.tables
      ensures Latest(store + [Inserted(row)], w.schema, t) == Some(Row(w.schema, w.tables, Requested, None))
    {
      LatestAppend(store, Inserted(row), w.schema, t);
    }
  }

  lemma UpdatedStands(store: Store, w: Worker)
    requires StandsAt(store, w, Requested)
    ensures StandsAt(Update(store, Row(w.schema, w.tables, InProgress, None)), w, InProgress)
  {
    var row := Row(w.schema, w.tables, InProgress, None);
    forall t | t in w.tables ensures Latest(Update(store, row), w.schema, t) == Some(row) {
      LatestUpdate(store, row, w.schema, t);
    }
  }

  lemma OwnMarked(st: State, i: nat, outcome: Outcome)
    requires MarkedInv(st) && st.phase == Marking && i < |st.workers| && st.workers[i].pc != Finished
    ensures Marked(MarkingStep(st, i, outcome), MarkingStep(st, i, outcome).workers[i])
  {
    var w := st.workers[i];
    assert Owns(st, i) && Marked(st, w);
    CreatedStands(st.store, w, w.Record(st.heap));
    if w.pc == ToUpdate {
      UpdatedStands(st.store, w);
    }
  }

  lemma OtherStands(store: Store, next: Store, row: Row, w: Worker, status: Status)
    requires row.schema != w.schema && StandsAt(store, w, status)
    requires next == store || next == store + [Inserted(row)] || next == Update(store, row)
    ensures StandsAt(next, w, status)
  {
    OthersStand(store, row, w, status);
    OthersStand(store, Inserted(row), w, status);
  }

  /** What one goroutine does to the rest of the state. */
  lemma OneStep(st: State, i: nat, outcome: Outcome)
    requires i < |st.workers|
    ensures var next, row := MarkingStep(st, i, outcome), st.workers[i].Record(st.heap);
            && |next.workers| == |st.workers| && next.workers == st.workers[i := next.workers[i]]
            && (next.firstErr == None ==> st.firstErr == None)
            && (next.store == st.store || next.store == st.store + [Inserted(row)]
                || next.store == Update(st.store, row))
  {
  }

  lemma OtherMarked(st: State, next: State, i: nat, j: nat)
    requires MarkedInv(st) && st.phase == Marking && i < |st.workers| && j < |st.workers| && i != j
    requires next.firstErr == None ==> st.firstErr == None
    requires var row := st.workers[i].Record(st.heap);
             next.store == st.store || next.store == st.store + [Inserted(row)] || next.store == Update(st.store, row)
    ensures Marked(next, st.workers[j])
  {
    var w, row := st.workers[j], st.workers[i].Record(st.heap);
    assert Owns(st, i) && Owns(st, j) && Marked(st, w);
    if StandsAt(st.store, w, Requested) { OtherStands(st.store, next.store, row, w, Requested); }
    if StandsAt(st.store, w, InProgress) { OtherStands(st.store, next.store, row, w, InProgress); }
  }

  lemma MarkedKept(st: State, i: nat, outcome: Outcome)
    requires MarkedInv(st) && st.phase == Marking && i < |st.workers| && st.workers[i].pc != Finished
    ensures MarkedInv(MarkingStep(st, i, outcome))
  {
    var next := MarkingStep(st, i, outcome);
    MarkingShape(st, i, outcome);
    OneStep(st, i, outcome);
    forall j | 0 <= j < |next.workers| ensures Marked(next, next.workers[j]) {
      if j == i { OwnMarked(st, i, outcome); } else { OtherMarked(st, next, i, j); }
    }
  }

  /** Steps of the in-progress phase alone. */
  ghost predicate Marks(repeatable: bool, st: State, works: seq<Step>) {
    st.phase == Marking && Runs(repeatable, st, works) && forall step :: step in works ==> step.Work?
  }

  lemma {:induction false} MarkedAlways(repeatable: bool, st: State, works: seq<Step>)
    requires MarkedInv(st) && Marks(repeatable, st, works)
    ensures var next := Exec(repeatable, st, works);
            MarkedInv(next) && next.phase == Marking && next.plan == st.plan
    decreases |works|
  {
    if works == [] {
    } else {
      MarkedKept(st, works[0].i, works[0].outcome);
      MarkedAlways(repeatable, Apply(repeatable, st, works[0]), works[1..]);
    }
  }

  lemma StartMarked(repeatable: bool, st: State, asked: Tables, plan: Tables, order: seq<string>)
    requires Enabled(repeatable, st, Start(asked, None, plan, order)) && HasTables(plan)
    ensures MarkedInv(Apply(repeatable, st, Start(asked, None, plan, order)))
  {
    StartShape(repeatable, st, asked, plan, order);
  }

  lemma AllStand(st: State, schema: string, table: string)
    requires MarkedInv(st) && st.phase == Marking && AllFinished(st) && st.firstErr == None
    requires schema in st.plan && table in st.plan[schema]
    ensures Latest(st.store, schema, table) == Some(Row(schema, st.plan[schema], InProgress, None))
  {
    var i :| 0 <= i < |st.order| && st.order[i] == schema;
    assert Owns(st, i) && Marked(st, st.workers[i]);
  }

  /** When the wrapped generator is called, the latest request for every table it is handed is the
      run's own: in progress, and without errors. */
  lemma HandedInProgress(repeatable: bool, st: State, asked: Tables, plan: Tables, order: seq<string>,
                         works: seq<Step>, err: Option<GoErr<nat>>, heap: seq<Errs>, schema: string, table: string)
    requires Enabled(repeatable, st, Start(asked, None, plan, order)) && HasTables(plan)
    requires Marks(repeatable, Apply(repeatable, st, Start(asked, None, plan, order)), works)
    requires Enabled(repeatable, Exec(repeatable, Apply(repeatable, st, Start(asked, None, plan, order)), works),
                     Generate(err, heap))
    requires schema in plan && table in plan[schema]
    ensures Latest(Exec(repeatable, Apply(repeatable, st, Start(asked, None, plan, order)), works).store, schema, table)
            == Some(Row(schema, plan[schema], InProgress, None))
  {
    var started := Apply(repeatable, st, Start(asked, None, plan, order));
    StartMarked(repeatable, st, asked, plan, order);
    MarkedAlways(repeatable, started, works);
    AllStand(Exec(repeatable, started, works), schema, table);
  }

  /** The error of one of the failed store calls. */
  ghost predicate FromFailure(works: seq<Step>, msg: string) {
    exists step :: step in works && step.Work? && step.outcome.Failed? && step.outcome.msg == msg
  }

  lemma {:induction false} MarkingErrors(repeatable: bool, st: State, works: seq<Step>)
    requires Marks(repeatable, st, works)
    ensures var next := Exec(repeatable, st, works);
            && next.phase == Marking && next.calls == st.calls && next.genErr == st.genErr
            && (st.firstErr.Some? ==> next.firstErr == st.firstErr)
            && (st.firstErr == None && next.firstErr.Some? ==> FromFailure(works, next.firstErr.value))
    decreases |works|
  {
    if works == [] {
    } else {
      var next := Apply(repeatable, st, works[0]);
      MarkingErrors(repeatable, next, works[1..]);
      assert works[0] in works;
      assert forall step :: step in works[1..] ==> step in works;
    }
  }

  /** A run that ends before the wrapped generator is called returns the error of one of its failed
      store calls, and has called nothing. */
  lemma FailedMarking(repeatable: bool, st: State, works: seq<Step>)
    requires Marks(repeatable, st, works) && st.firstErr == None
    requires Enabled(repeatable, Exec(repeatable, st, works), Return)
    ensures var end := Apply(repeatable, Exec(repeatable, st, works), Return);
            && end.calls == st.calls
            && end.result.Some? && end.result.value.StoreError? && FromFailure(works, end.result.value.msg)
  {
    MarkingErrors(repeatable, st, works);
  }

  /** A run that may repeat snapshots hands over everything it is asked for, whatever is recorded. */
  lemma RepeatableHandsAll(st: State, asked: Tables, plan: Tables, order: seq<string>, works: seq<Step>,
                           err: Option<GoErr<nat>>, heap: seq<Errs>)
    requires Enabled(true, st, Start(asked, None, plan, order)) && HasTables(plan)
    requires Marks(true, Apply(true, st, Start(asked, None, plan, order)), works)
    requires Enabled(true, Exec(true, Apply(true, st, Start(asked, None, plan, order)), works), Generate(err, heap))
    ensures Apply(true, Exec(true, Apply(true, st, Start(asked, None, plan, order)), works), Generate(err, heap)).calls
            == st.calls + [asked]
  {
    var started := Apply(true, st, Start(asked, None, plan, order));
    StartMarked(true, st, asked, plan, order);
    MarkedAlways(true, started, works);
    MarkingErrors(true, started, works);
  }
}
