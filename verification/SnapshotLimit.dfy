/** What happens once a schema has as many requests as one read of the store returns. */
module SnapshotLimit {
  import opened Text
  import opened SnapshotRequests
  import opened SnapshotStore
  import opened SnapshotRecorder
  import opened SnapshotSafety

  /** A read of the schema is full, and all it returns has completed. */
  ghost predicate Full(store: Store, schema: string) {
    |RowsOf(store, schema)| >= QUERY_LIMIT && forall r :: r in Read(store, schema) ==> r.status == Completed
  }

  lemma UpdateMissesCompleted(rows: Store, row: Row)
    requires forall r :: r in rows ==> r.status == Completed
    ensures Update(rows, row) == rows
  {
    forall i | 0 <= i < |rows| ensures Update(rows, row)[i] == rows[i] {
      assert rows[i] in rows;
    }
  }

  lemma FullKept(store: Store, row: Row, schema: string)
    requires Full(store, schema)
    ensures Full(store + [row], schema) && Read(store + [row], schema) == Read(store, schema)
    ensures Full(Update(store, row), schema) && Read(Update(store, row), schema) == Read(store, schema)
  {
    RowsOfAppend(store, row, schema);
    ReadAppend(store, row, schema);
    RowsOfUpdate(store, row, schema);
    ReadUpdate(store, row, schema);
    UpdateMissesCompleted(Read(store, schema), row);
  }

  lemma FullStep(repeatable: bool, st: State, step: Step, schema: string)
    requires Full(st.store, schema) && Enabled(repeatable, st, step)
    ensures var next := Apply(repeatable, st, step);
            Full(next.store, schema) && Read(next.store, schema) == Read(st.store, schema)
  {
    StoreSteps(repeatable, st, step);
    if step.Work? {
      var row := st.workers[step.i].Record(st.heap);
      FullKept(st.store, row, schema);
      FullKept(st.store, Inserted(row), schema);
    }
  }

  /** From then on reads of the schema never change, whatever runs do and however they end. */
  lemma {:induction false} FullForEver(repeatable: bool, st: State, steps: seq<Step>, schema: string)
    requires Full(st.store, schema) && Runs(repeatable, st, steps)
    ensures var end := Exec(repeatable, st, steps);
            Full(end.store, schema) && Read(end.store, schema) == Read(st.store, schema)
    decreases |steps|
  {
    if steps == [] {
    } else {
      FullStep(repeatable, st, steps[0], schema);
      FullForEver(repeatable, Apply(repeatable, st, steps[0]), steps[1..], schema);
    }
  }

  /** So whether a run hands over a requested table is settled for ever by the oldest requests: the
      same tables every time, also those that have completed without an error since. */
  lemma SettledForEver(init: State, before: seq<Step>, after: seq<Step>, asked: Tables, plan: Tables,
                       order: seq<string>, works: seq<Step>, err: Option<GoErr<nat>>, heap: seq<Errs>,
                       schema: string, table: string)
    requires Initial(init) && Runs(false, init, before) && Runs(false, Exec(false, init, before), after)
    requires (forall step :: step in before + after ==> AsksConcretely(step)) && Concrete(asked)
    requires Full(Exec(false, init, before).store, schema)
    requires var st := Exec(false, Exec(false, init, before), after);
             Enabled(false, st, Start(asked, None, plan, order))
             && var started := Apply(false, st, Start(asked, None, plan, order));
                started.phase == Marking && Runs(false, started, works)
                && Enabled(false, Exec(false, started, works), Generate(err, heap))
    requires forall step :: step in works ==> step.Work?
    ensures var then_, st := Exec(false, init, before), Exec(false, Exec(false, init, before), after);
            var through := Exec(false, Apply(false, st, Start(asked, None, plan, order)), works);
            var calls := Apply(false, through, Generate(err, heap)).calls;
            |calls| == |st.calls| + 1
            && ((schema in calls[|st.calls|] && table in calls[|st.calls|][schema]) <==>
                (schema in asked && table in asked[schema]
                 && (Seen(then_.store, schema, table).None? || FailedFor(Seen(then_.store, schema, table), table))))
  {
    assert forall step :: step in before ==> step in before + after;
    assert forall step :: step in after ==> step in before + after;
    var then_ := Exec(false, init, before);
    InvAlways(init, before);
    InvAlways(then_, after);
    FullForEver(false, then_, after, schema);
    HandedAgain(Exec(false, then_, after), asked, plan, order, works, err, heap, schema, table);
  }
}
