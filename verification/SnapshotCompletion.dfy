/** What one run leaves behind, for every interleaving of its goroutines and every pattern of
    store failures. */
module SnapshotCompletion {
  import opened Text
  import opened SnapshotRequests
  import opened SnapshotStore
  import opened SnapshotRecorder
  import opened SnapshotSafety

  /** The worker's request is the latest for each of its tables, and still open. */
  ghost predicate Pending(store: Store, w: Worker) {
    forall t :: t in w.tables ==>
      var r := Latest(store, w.schema, t);
      r.Some? && r.value.tables == w.tables && r.value.status != Completed
  }

  /** What the wrapped error says about one schema; its text plays no part in the choice. */
  function PickOf(st: State, schema: string): Pick<nat> {
    GetSchemaErrors<nat>(schema, st.genErr, "")
  }

  /** Whether the wrapped generator reported the table as failed. */
  predicate Reports(st: State, schema: string, table: string) {
    match PickOf(st, schema)
    case Existing(ref) => IsTableError(Deref(st.reported, ref), table)
    case Fresh(_) => true
  }

  predicate Grown(a: Errs, b: Errs) {
    a.schema == b.schema && a.tables == b.tables && a.globals <= b.globals
  }

  /** No store update of the completion phase has failed so far. */
  ghost predicate NoFailure(st: State) {
    forall i :: 0 <= i < |st.workers| ==> !Broken(st.workers[i])
  }

  predicate Broken(w: Worker) {
    w.pc.ToNote? || (w.pc == Finished && !w.stored)
  }

  /** The worker's pointer is the one the wrapped error holds for its schema, or its own object. */
  ghost predicate Points(st: State, w: Worker) {
    match PickOf(st, w.schema)
    case Existing(ref) => w.errs == ref
    case Fresh(_) => w.errs.Some? && |st.reported| <= w.errs.value < |st.heap| && st.heap[w.errs.value].globals != []
  }

  /** Errors as recorded agree with what was reported; they may have grown if an update failed. */
  ghost predicate Faithful(st: State, schema: string, e: Option<Errs>) {
    match PickOf(st, schema)
    case Existing(None) => e == None
    case Existing(Some(r)) =>
      r < |st.reported| && e.Some? && Grown(st.reported[r], e.value) && (NoFailure(st) ==> e.value == st.reported[r])
    case Fresh(_) => e.Some? && e.value.globals != []
  }

  ghost predicate Recorded(st: State, w: Worker) {
    forall t :: t in w.tables ==>
      var r := Latest(st.store, w.schema, t);
      r.Some? && r.value.status == Completed && Faithful(st, w.schema, r.value.errors)
  }

  ghost predicate HeapGrown(st: State) {
    |st.reported| <= |st.heap|
    && forall r :: 0 <= r < |st.reported| ==>
         Grown(st.reported[r], st.heap[r]) && (NoFailure(st) ==> st.heap[r] == st.reported[r])
  }

  ghost predicate WorkerInv(st: State, w: Worker) {
    if st.phase == Marking then
      w.pc != ToCreate && (w.pc == Finished ==> st.firstErr == None) ==> Pending(st.store, w)
    else
      && (w.pc == ToMark || w.pc == ToUpdate ==> Pending(st.store, w))
      && (w.pc == ToUpdate ==> Points(st, w))
      && (w.pc.ToNote? ==> !w.stored && st.genErr.Some?)
      && (w.pc == Finished && w.stored ==> Recorded(st, w))
  }

  ghost predicate RunInv(st: State) {
    Shape(st)
    && (st.phase != Idle ==> forall i :: 0 <= i < |st.workers| ==> WorkerInv(st, st.workers[i]))
    && (st.phase == Completing ==> HeapGrown(st) && FirstErrInv(st))
  }

  ghost predicate FirstErrInv(st: State) {
    st.firstErr.Some? <==>
    st.genErr == None && exists i :: 0 <= i < |st.workers| && st.workers[i].pc == Finished && !st.workers[i].stored
  }

  // ---------- the in-progress phase ----------

  lemma PendingUpdate(store: Store, row: Row, w: Worker)
    requires Pending(store, w) && (row.schema == w.schema ==> row.status != Completed)
    ensures Pending(Update(store, row), w)
  {
    forall t | t in w.tables
      ensures var r := Latest(Update(store, row), w.schema, t);
              r.Some? && r.value.tables == w.tables && r.value.status != Completed
    {
      LatestUpdate(store, row, w.schema, t);
      LatestNamesTable(store, w.schema, t);
    }
  }

  lemma PendingAppend(store: Store, row: Row, w: Worker)
    requires row.status != Completed
    requires if row.schema == w.schema then row.tables == w.tables else Pending(store, w)
    ensures Pending(store + [row], w)
  {
    forall t | t in w.tables
      ensures var r := Latest(store + [row], w.schema, t);
              r.Some? && r.value.tables == w.tables && r.value.status != Completed
    {
      LatestAppend(store, row, w.schema, t);
    }
  }

  lemma MarkingInv(st: State, i: nat, outcome: Outcome)
    requires RunInv(st) && st.phase == Marking && i < |st.workers| && st.workers[i].pc != Finished
    ensures RunInv(MarkingStep(st, i, outcome))
  {
    var next := MarkingStep(st, i, outcome);
    var row := st.workers[i].Record(st.heap);
    MarkingShape(st, i, outcome);
    assert Owns(st, i);
    forall j | 0 <= j < |next.workers| ensures WorkerInv(next, next.workers[j]) {
      assert WorkerInv(st, st.workers[j]) && Owns(st, j);
      var w := next.workers[j];
      if w.pc != ToCreate && (w.pc == Finished ==> next.firstErr == None) {
        if j != i || st.workers[i].pc != ToCreate {
          assert Pending(st.store, st.workers[j]);
          PendingUpdate(st.store, row, w);
        }
        if st.workers[i].pc == ToCreate {
          PendingAppend(st.store, Inserted(row), w);
        }
      }
    }
  }

  // ---------- the completion phase ----------

  /** Steps that leave the store's view of a worker's tables alone keep what is recorded. */
  lemma RecordedKept(st: State, next: State, w: Worker)
    requires Recorded(st, w)
    requires next.genErr == st.genErr && next.reported == st.reported && (NoFailure(next) ==> NoFailure(st))
    requires next.store == st.store || exists row :: next.store == Update(st.store, row)
    ensures Recorded(next, w)
  {
    if next.store != st.store {
      var row :| next.store == Update(st.store, row);
      forall t | t in w.tables ensures Latest(next.store, w.schema, t) == Latest(st.store, w.schema, t) {
        LatestUpdate(st.store, row, w.schema, t);
      }
    }
  }

  lemma FailuresStay(st: State, next: State, i: nat)
    requires i < |st.workers| == |next.workers| && next.workers == st.workers[i := next.workers[i]]
    requires Broken(st.workers[i]) ==> Broken(next.workers[i])
    ensures NoFailure(next) ==> NoFailure(st)
  {
    forall j | 0 <= j < |st.workers| && Broken(st.workers[j]) ensures Broken(next.workers[j]) {
    }
  }

  lemma CompleteRequestInv(st: State, i: nat, text: string)
    requires RunInv(st) && st.phase == Completing && i < |st.workers| && st.workers[i].pc == ToMark
    ensures RunInv(CompleteRequest(st, i, text))
  {
    var next := CompleteRequest(st, i, text);
    CompleteRequestShape(st, i, text);
    FailuresStay(st, next, i);
    PickRefs(st.workers[i].schema, st.genErr, text, |st.reported|);
    PickText(st.workers[i].schema, st.genErr, text);
    forall j | 0 <= j < |next.workers| ensures WorkerInv(next, next.workers[j]) {
      assert WorkerInv(st, st.workers[j]) && Owns(st, j);
      if next.workers[j].pc == Finished && next.workers[j].stored {
        RecordedKept(st, next, next.workers[j]);
      }
    }
    FirstErrKept(st, next, i);
  }

  /** Only the text of a new error depends on what the generator's error prints as. */
  lemma PickText(schema: string, err: Option<GoErr<nat>>, text: string)
    ensures var a, b := GetSchemaErrors<nat>(schema, err, text), GetSchemaErrors<nat>(schema, err, "");
            if a.Existing? then a == b else b.Fresh? && a.errs.globals == [text]
  {
  }

  /** A worker that is not done, before and after, has no part in the first error. */
  lemma FirstErrKept(st: State, next: State, i: nat)
    requires FirstErrInv(st) && i < |st.workers| == |next.workers|
    requires next.workers == st.workers[i := next.workers[i]]
    requires st.workers[i].pc != Finished
    requires next.workers[i].pc != Finished || next.workers[i].stored || st.genErr.Some?
    requires next.firstErr == st.firstErr && next.genErr == st.genErr
    ensures FirstErrInv(next)
  {
    if j :| 0 <= j < |st.workers| && st.workers[j].pc == Finished && !st.workers[j].stored {
      assert next.workers[j] == st.workers[j];
    }
  }

  lemma NoteFailureInv(st: State, i: nat, msg: string)
    requires RunInv(st) && st.phase == Completing && i < |st.workers| && st.workers[i].pc == ToNote(msg)
    ensures RunInv(NoteFailure(st, i, msg))
  {
    var next := NoteFailure(st, i, msg);
    assert WorkerInv(st, st.workers[i]) && Owns(st, i);
    WorkerShape(st, next, i, next.workers[i]);
    FailuresStay(st, next, i);
    assert !NoFailure(st) && !NoFailure(next) by {
      assert Broken(st.workers[i]) && Broken(next.workers[i]);
    }
    forall j | 0 <= j < |next.workers| ensures WorkerInv(next, next.workers[j]) {
      assert WorkerInv(st, st.workers[j]);
      if next.workers[j].pc == Finished && next.workers[j].stored {
        RecordedKept(st, next, next.workers[j]);
      }
    }
    FirstErrKept(st, next, i);
  }

  /** A successful final update records the worker's errors for all its tables. */
  lemma StoredIsRecorded(st: State, w: Worker)
    requires Pending(st.store, w) && Points(st, w) && HeapGrown(st) && w.status == Completed
    requires st.genErr.Some? ==> RefsIn(st.genErr.value, |st.reported|)
    ensures Recorded(st.(store := Update(st.store, w.Record(st.heap))), w)
  {
    PickRefs(w.schema, st.genErr, "", |st.reported|);
    forall t | t in w.tables
      ensures Latest(Update(st.store, w.Record(st.heap)), w.schema, t) == Some(w.Record(st.heap))
    {
      LatestUpdate(st.store, w.Record(st.heap), w.schema, t);
      LatestNamesTable(st.store, w.schema, t);
    }
  }

  lemma StoreCompletedInv(st: State, i: nat, outcome: Outcome)
    requires RunInv(st) && st.phase == Completing && i < |st.workers| && st.workers[i].pc == ToUpdate
    ensures RunInv(StoreCompleted(st, i, outcome))
  {
    var next := StoreCompleted(st, i, outcome);
    var w := st.workers[i];
    var row := w.Record(st.heap);
    assert WorkerInv(st, w) && Owns(st, i);
    WorkerShape(st, next, i, next.workers[i]);
    FailuresStay(st, next, i);
    assert next.store == st.store || next.store == Update(st.store, row);
    forall j | 0 <= j < |next.workers| ensures WorkerInv(next, next.workers[j]) {
      var v := next.workers[j];
      assert WorkerInv(st, st.workers[j]) && Owns(st, j);
      if j == i {
        if outcome.Succeeded? {
          StoredIsRecorded(st, w);
          var done := st.(store := next.store);
          assert Recorded(done, w) && next.store == done.store;
          RecordedKept(done, next, v);
        }
      } else {
        if v.pc == Finished && v.stored { RecordedKept(st, next, v); }
        if v.pc == ToMark || v.pc == ToUpdate { PendingUpdate(st.store, row, v); }
      }
    }
    StoreCompletedFirstErr(st, i, outcome);
  }

  lemma StoreCompletedFirstErr(st: State, i: nat, outcome: Outcome)
    requires FirstErrInv(st) && i < |st.workers| && st.workers[i].pc == ToUpdate
    ensures FirstErrInv(StoreCompleted(st, i, outcome))
  {
    var next := StoreCompleted(st, i, outcome);
    if j :| 0 <= j < |st.workers| && st.workers[j].pc == Finished && !st.workers[j].stored {
      assert next.workers[j] == st.workers[j];
    }
    if outcome.Failed? && st.genErr.None? {
      assert next.workers[i].pc == Finished && !next.workers[i].stored;
    }
  }

  lemma GenerateInv(repeatable: bool, st: State, err: Option<GoErr<nat>>, heap: seq<Errs>)
    requires RunInv(st) && Enabled(repeatable, st, Generate(err, heap))
    ensures RunInv(Apply(repeatable, st, Generate(err, heap)))
  {
    var next := Apply(repeatable, st, Generate(err, heap));
    ShapeKept(repeatable, st, Generate(err, heap));
    forall j | 0 <= j < |next.workers| ensures WorkerInv(next, next.workers[j]) {
      assert WorkerInv(st, st.workers[j]);
      assert Pending(st.store, st.workers[j]);
    }
  }

  lemma RunInvKept(repeatable: bool, st: State, step: Step)
    requires RunInv(st) && Enabled(repeatable, st, step)
    ensures RunInv(Apply(repeatable, st, step))
  {
    ShapeKept(repeatable, st, step);
    match step
    case Work(i, outcome, text) =>
      assert Owns(st, i);
      if st.phase == Marking {
        MarkingInv(st, i, outcome);
      } else {
        match st.workers[i].pc
        case ToNote(msg) => NoteFailureInv(st, i, msg);
        case ToUpdate => StoreCompletedInv(st, i, outcome);
        case _ => CompleteRequestInv(st, i, text);
      }
    case Generate(err, heap) => GenerateInv(repeatable, st, err, heap);
    case _ =>
  }

  lemma {:induction false} RunInvAlways(repeatable: bool, st: State, steps: seq<Step>)
    requires RunInv(st) && Runs(repeatable, st, steps)
    ensures RunInv(Exec(repeatable, st, steps))
    decreases |steps|
  {
    if steps == [] {
    } else {
      RunInvKept(repeatable, st, steps[0]);
      RunInvAlways(repeatable, Apply(repeatable, st, steps[0]), steps[1..]);
    }
  }

  // ---------- main results ----------

  ghost predicate AllCompleted(st: State) {
    forall i :: 0 <= i < |st.workers| ==> st.workers[i].status == Completed
  }

  ghost predicate AllStored(st: State) {
    forall i :: 0 <= i < |st.workers| ==> st.workers[i].stored
  }

  /** Nil exactly if the generator and every final update succeeded, and otherwise the generator's
      error when there is one. */
  ghost predicate ReturnsRightly(st: State, result: Option<Returned>) {
    && (result == Some(Nil) <==> st.genErr == None && AllStored(st))
    && (st.genErr.Some? ==> result == Some(WrappedError(st.genErr.value)))
  }

  /** The latest request for the table completed without an error for it. */
  predicate RecordedClean(store: Store, schema: string, table: string) {
    var r := Latest(store, schema, table);
    r.Some? && r.value.status == Completed && !r.value.HasFailedForTable(table)
  }

  /** The latest request for the table completed; a reported failure is in it; a schema without
      an error is recorded clean; and without update failures nothing else counts as failed. */
  ghost predicate Settled(st: State, schema: string, table: string) {
    var r := Latest(st.store, schema, table);
    && r.Some? && r.value.status == Completed
    && (Reports(st, schema, table) ==> r.value.HasFailedForTable(table))
    && (PickOf(st, schema) == Existing(None) ==> r.value.errors == None && RecordedClean(st.store, schema, table))
    && (NoFailure(st) ==> (r.value.HasFailedForTable(table) <==> Reports(st, schema, table)))
  }

  ghost predicate StoredSettled(st: State) {
    forall i, t :: 0 <= i < |st.workers| && st.workers[i].stored && t in st.workers[i].tables ==>
      Settled(st, st.workers[i].schema, t)
  }

  /** Every planned table is recorded as clean exactly if the generator did not report it. */
  ghost predicate RecordsReports(st: State) {
    forall s, t :: s in st.plan && t in st.plan[s] ==> (RecordedClean(st.store, s, t) <==> !Reports(st, s, t))
  }

  /** The goroutines of the completion phase are through. */
  ghost predicate Through(st: State) {
    RunInv(st) && st.phase == Completing && AllFinished(st)
  }

  lemma ThroughCompleted(st: State)
    requires Through(st)
    ensures AllCompleted(st)
  {
    forall i | 0 <= i < |st.workers| ensures st.workers[i].status == Completed {
      assert Owns(st, i);
    }
  }

  lemma ThroughReturns(repeatable: bool, st: State)
    requires Through(st)
    ensures ReturnsRightly(st, Apply(repeatable, st, Return).result)
  {
  }

  lemma FaithfulSettles(st: State, schema: string, table: string)
    requires var r := Latest(st.store, schema, table);
             r.Some? && r.value.status == Completed && Faithful(st, schema, r.value.errors)
    ensures Settled(st, schema, table)
  {
  }

  lemma ThroughSettled(st: State)
    requires Through(st)
    ensures StoredSettled(st)
  {
    forall i, t | 0 <= i < |st.workers| && st.workers[i].stored && t in st.workers[i].tables
      ensures Settled(st, st.workers[i].schema, t)
    {
      assert WorkerInv(st, st.workers[i]);
      FaithfulSettles(st, st.workers[i].schema, t);
    }
  }

  lemma ThroughRecords(st: State)
    requires Through(st) && AllStored(st)
    ensures RecordsReports(st)
  {
    ThroughSettled(st);
    assert NoFailure(st);
    forall s, t | s in st.plan && t in st.plan[s] ensures RecordedClean(st.store, s, t) <==> !Reports(st, s, t) {
      var i :| 0 <= i < |st.order| && st.order[i] == s;
      assert Owns(st, i) && Settled(st, st.workers[i].schema, t);
    }
  }

  /** A run whose goroutines have all finished completing: every request is Completed; nil is
      returned iff the generator and every final update succeeded, and otherwise the generator's
      error when there is one; and what the store says of each table is what was reported. */
  lemma CompletedRun(repeatable: bool, init: State, steps: seq<Step>)
    requires init.phase == Idle && Runs(repeatable, init, steps)
    requires var st := Exec(repeatable, init, steps); st.phase == Completing && AllFinished(st)
    ensures var st := Exec(repeatable, init, steps);
            && AllCompleted(st) && ReturnsRightly(st, Apply(repeatable, st, Return).result)
            && StoredSettled(st) && (AllStored(st) ==> RecordsReports(st))
  {
    RunInvAlways(repeatable, init, steps);
    var st := Exec(repeatable, init, steps);
    ThroughCompleted(st);
    ThroughReturns(repeatable, st);
    ThroughSettled(st);
    if AllStored(st) {
      ThroughRecords(st);
    }
  }

  lemma RecordedIsClean(store: Store, schema: string, table: string)
    requires |RowsOf(store, schema)| <= QUERY_LIMIT
    ensures Clean(store, schema, table) <==> RecordedClean(store, schema, table)
  {
    SeenIsLatest(store, schema, table);
  }

  /** Done for good: after a run in which every update succeeded, a table its generator did not
      report is never handed over again, by any later run, if a read still returns all requests of
      its schema. */
  lemma DoneForGood(init: State, run: seq<Step>, after: seq<Step>, schema: string, table: string)
    requires Initial(init) && Runs(false, init, run) && forall step :: step in run + after ==> AsksConcretely(step)
    requires Runs(false, Exec(false, init, run), after)
    requires var st := Exec(false, init, run);
             && st.phase == Completing && AllFinished(st) && AllStored(st) && |RowsOf(st.store, schema)| <= QUERY_LIMIT
             && schema in st.plan && table in st.plan[schema] && !Reports(st, schema, table)
    ensures var st := Exec(false, init, run);
            NotHandedSince(Exec(false, st, after), |st.calls|, schema, table)
  {
    var st := Exec(false, init, run);
    assert Clean(st.store, schema, table) by {
      CompletedRun(false, init, run);
      assert RecordsReports(st);
      RecordedIsClean(st.store, schema, table);
    }
    NeverHandedAgain(init, run, after, schema, table);
  }

  /** How many steps a worker has left in its phase. */
  function StepsLeft(pc: Pc): nat {
    match pc
    case ToCreate => 4
    case ToMark => 3
    case ToUpdate => 2
    case ToNote(_) => 1
    case Finished => 0
  }

  function TotalLeft(workers: seq<Worker>): nat {
    if workers == [] then 0 else StepsLeft(workers[0].pc) + TotalLeft(workers[1..])
  }

  lemma {:induction false} TotalLeftUpdate(workers: seq<Worker>, i: nat, w: Worker)
    requires i < |workers|
    ensures TotalLeft(workers[i := w]) == TotalLeft(workers) - StepsLeft(workers[i].pc) + StepsLeft(w.pc)
  {
    if i == 0 {
    } else {
      TotalLeftUpdate(workers[1..], i - 1, w);
      assert workers[i := w][1..] == workers[1..][i - 1 := w];
    }
  }

  lemma StepShrinks(repeatable: bool, st: State, i: nat, outcome: Outcome, text: string)
    requires Shape(st) && Enabled(repeatable, st, Work(i, outcome, text))
    ensures var next := Apply(repeatable, st, Work(i, outcome, text)).workers;
            |next| == |st.workers| && next == st.workers[i := next[i]]
            && StepsLeft(next[i].pc) < StepsLeft(st.workers[i].pc)
  {
    assert Owns(st, i);
  }

  /** No interleaving goes on for ever: every goroutine step leaves fewer to come. */
  lemma WorkShrinks(repeatable: bool, st: State, step: Step)
    requires Shape(st) && step.Work? && Enabled(repeatable, st, step)
    ensures TotalLeft(Apply(repeatable, st, step).workers) < TotalLeft(st.workers)
  {
    StepShrinks(repeatable, st, step.i, step.outcome, step.text);
    TotalLeftUpdate(st.workers, step.i, Apply(repeatable, st, step).workers[step.i]);
  }

  /** No interleaving gets stuck: until it returns, a run always has a step to take. */
  lemma Progress(repeatable: bool, st: State)
    requires st.phase != Idle
    ensures || (exists i: nat :: i < |st.workers| && Enabled(repeatable, st, Work(i, Succeeded, "")))
            || Enabled(repeatable, st, Generate(None, []))
            || Enabled(repeatable, st, Return)
  {
    if !AllFinished(st) {
      var i :| 0 <= i < |st.workers| && st.workers[i].pc != Finished;
      assert Enabled(repeatable, st, Work(i, Succeeded, ""));
    }
  }
}
