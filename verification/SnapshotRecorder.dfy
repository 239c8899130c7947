/** `SnapshotRecorder.CreateSnapshot` as a state machine: repeated runs over one store, every
    per-schema goroutine advancing by single steps in any order, any store call failing (before
    or after taking effect), and the process stopping anywhere. */
module SnapshotRecorder {
  import opened Text
  import opened SnapshotRequests
  import opened SnapshotStore

  /** A store call as its caller sees it; a failed call may still have taken effect. */
  datatype Outcome = Succeeded | Failed(msg: string, applied: bool)

  datatype Pc = ToCreate | ToMark | ToUpdate | ToNote(msg: string) | Finished

  /** One per-schema goroutine and the request it owns; `errs` points into the error heap and
      `stored` says whether its last update succeeded. */
  datatype Worker = Worker(schema: string, tables: seq<string>, pc: Pc, status: Status, errs: Option<nat>,
                           stored: bool) {
    /** The row an update writes: the request with the errors its pointer leads to. */
    function Record(heap: seq<Errs>): Row {
      Row(schema, tables, status, Deref(heap, errs))
    }
  }

  /** Pointers always lead into the heap (see `Shape`). */
  function Deref(heap: seq<Errs>, ref: Option<nat>): Option<Errs> {
    if ref.Some? && ref.value < |heap| then Some(heap[ref.value]) else None
  }

  datatype Phase = Idle | Marking | Completing

  datatype Returned = Nil | StoreError(msg: string) | WrappedError(err: GoErr<nat>)

  /** `order` lists the plan's schemas in the order their requests were made; `reported` is the
      error heap as the wrapped generator returned it, `heap` the same objects now; `calls` lists
      the snapshots handed to the wrapped generator. */
  datatype State = State(
    store: Store,
    phase: Phase,
    plan: Tables,
    order: seq<string>,
    workers: seq<Worker>,
    firstErr: Option<string>,
    genErr: Option<GoErr<nat>>,
    reported: seq<Errs>,
    heap: seq<Errs>,
    calls: seq<Tables>,
    result: Option<Returned>)

  datatype Step =
    | Start(asked: Tables, readError: Option<string>, plan: Tables, order: seq<string>)
    | Work(i: nat, outcome: Outcome, text: string)
    | Generate(err: Option<GoErr<nat>>, heap: seq<Errs>)
    | Return
    | Crash

  predicate HasTables(plan: Tables) {
    exists s :: s in plan && plan[s] != []
  }

  predicate AllFinished(st: State) {
    forall i :: 0 <= i < |st.workers| ==> st.workers[i].pc == Finished
  }

  /** All pointers in the error lie in the heap. */
  predicate RefsIn(e: GoErr<nat>, n: nat) {
    match e
    case SchemaErrs(Some(r)) => r < n
    case ErrorsPtr(m) => MapIn(m, n)
    case Wrapped(causes) => forall i :: 0 <= i < |causes| ==> RefsIn(causes[i], n)
    case _ => true
  }

  ghost predicate Enabled(repeatable: bool, st: State, step: Step) {
    match step
    case Start(asked, readError, plan, order) =>
      st.phase == Idle
      && (if readError.Some? then !repeatable else IsPlan(repeatable, st.store, asked, plan))
      && IsListingOf(order, plan.Keys)
    case Work(i, _, _) => st.phase != Idle && i < |st.workers| && st.workers[i].pc != Finished
    case Generate(err, heap) =>
      st.phase == Marking && AllFinished(st) && st.firstErr == None && (err.Some? ==> RefsIn(err.value, |heap|))
    case Return =>
      AllFinished(st) && (st.phase == Completing || (st.phase == Marking && st.firstErr.Some?))
    case Crash => st.phase != Idle
  }

  function FailureOf(outcome: Outcome): Option<string> {
    match outcome
    case Succeeded => None
    case Failed(msg, _) => Some(msg)
  }

  /** errgroup keeps the error that came first. */
  function FirstOf(first: Option<string>, err: Option<string>): Option<string> {
    if first.None? then err else first
  }

  function Effect(store: Store, changed: Store, outcome: Outcome): Store {
    if outcome.Failed? && !outcome.applied then store else changed
  }

  /** A goroutine of the in-progress phase. */
  function MarkingStep(st: State, i: nat, outcome: Outcome): State
    requires i < |st.workers|
  {
    var w := st.workers[i];
    match w.pc
    case ToCreate =>
      st.(store := Effect(st.store, st.store + [Inserted(w.Record(st.heap))], outcome),
          workers := st.workers[i := w.(pc := if outcome.Succeeded? then ToMark else Finished)],
          firstErr := FirstOf(st.firstErr, FailureOf(outcome)))
    case ToMark => st.(workers := st.workers[i := w.(pc := ToUpdate, status := InProgress)])
    case _ =>
      st.(store := Effect(st.store, Update(st.store, w.Record(st.heap)), outcome),
          workers := st.workers[i := w.(pc := Finished, stored := outcome.Succeeded?)],
          firstErr := FirstOf(st.firstErr, FailureOf(outcome)))
  }

  /** `getSchemaErrors` and `MarkCompleted`; `text` is what the wrapped error prints as. */
  function CompleteRequest(st: State, i: nat, text: string): State
    requires i < |st.workers|
  {
    var w := st.workers[i];
    match GetSchemaErrors<nat>(w.schema, st.genErr, text)
    case Existing(ref) =>
      st.(workers := st.workers[i := w.(pc := ToUpdate, status := Completed, errs := ref)])
    case Fresh(e) =>
      st.(heap := st.heap + [e],
          workers := st.workers[i := w.(pc := ToUpdate, status := Completed, errs := Some(|st.heap|))])
  }

  /** The final `UpdateSnapshotRequest`, whose failure is kept only if there is no wrapped error. */
  function StoreCompleted(st: State, i: nat, outcome: Outcome): State
    requires i < |st.workers|
  {
    var w := st.workers[i];
    var pc := if outcome.Failed? && st.genErr.Some? then ToNote(outcome.msg) else Finished;
    st.(store := Effect(st.store, Update(st.store, w.Record(st.heap)), outcome),
        workers := st.workers[i := w.(pc := pc, stored := outcome.Succeeded?)],
        firstErr := if st.genErr.None? then FirstOf(st.firstErr, FailureOf(outcome)) else st.firstErr)
  }

  /** `AddGlobalError` of the update's failure. */
  function NoteFailure(st: State, i: nat, msg: string): State
    requires i < |st.workers|
  {
    var w := st.workers[i];
    st.(heap := WithNote(st.heap, w.errs, msg), workers := st.workers[i := w.(pc := Finished)])
  }

  /** A goroutine of the completion phase. */
  function CompletingStep(st: State, i: nat, outcome: Outcome, text: string): State
    requires i < |st.workers|
  {
    match st.workers[i].pc
    case ToNote(msg) => NoteFailure(st, i, msg)
    case ToUpdate => StoreCompleted(st, i, outcome)
    case _ => CompleteRequest(st, i, text)
  }

  /** `AddGlobalError` through a pointer, which may be nil. */
  function WithNote(heap: seq<Errs>, ref: Option<nat>, msg: string): seq<Errs> {
    match Deref(heap, ref)
    case Some(e) => heap[ref.value := e.WithGlobal(msg)]
    case None => heap
  }

  function NewWorkers(plan: Tables, order: seq<string>): seq<Worker>
    requires forall s :: s in order ==> s in plan
  {
    seq(|order|, i requires 0 <= i < |order| => Worker(order[i], plan[order[i]], ToCreate, Unset, None, false))
  }

  function Resumed(workers: seq<Worker>): seq<Worker> {
    seq(|workers|, i requires 0 <= i < |workers| => workers[i].(pc := ToMark, stored := false))
  }

  ghost function Apply(repeatable: bool, st: State, step: Step): State
    requires Enabled(repeatable, st, step)
  {
    match step
    case Start(asked, readError, plan, order) =>
      if readError.Some? then st.(plan := map[], result := Some(StoreError(readError.value)))
      else if !HasTables(plan) then st.(plan := plan, result := Some(Nil))
      else st.(phase := Marking, plan := plan, order := order, workers := NewWorkers(plan, order), firstErr := None,
               genErr := None, reported := [], heap := [], result := None)
    case Work(i, outcome, text) =>
      if st.phase == Marking then MarkingStep(st, i, outcome) else CompletingStep(st, i, outcome, text)
    case Generate(err, heap) =>
      st.(phase := Completing, workers := Resumed(st.workers), genErr := err, reported := heap, heap := heap,
          calls := st.calls + [st.plan])
    case Return =>
      st.(phase := Idle,
          result := Some(if st.firstErr.Some? then StoreError(st.firstErr.value)
                         else if st.genErr.Some? then WrappedError(st.genErr.value)
                         else Nil))
    case Crash => st.(phase := Idle)
  }

  // ---------- invariants ----------

  /** During a run there is exactly one worker for each schema of the plan. */
  ghost predicate Shape(st: State) {
    st.phase != Idle ==>
      && IsListingOf(st.order, st.plan.Keys)
      && |st.workers| == |st.order|
      && (forall i :: 0 <= i < |st.workers| ==> Owns(st, i))
      && |st.reported| <= |st.heap|
      && (st.genErr.Some? ==> RefsIn(st.genErr.value, |st.reported|))
      && (st.phase == Marking ==> st.genErr == None)
  }

  ghost predicate Owns(st: State, i: nat)
    requires i < |st.workers| == |st.order|
  {
    var w := st.workers[i];
    w.schema == st.order[i] && w.schema in st.plan && st.plan[w.schema] == w.tables
    && Fits(st.phase, w, |st.heap|)
  }

  /** What a worker may look like in each phase. */
  predicate Fits(phase: Phase, w: Worker, n: nat) {
    if phase == Marking then w.errs == None && w.status != Completed && !w.pc.ToNote?
    else
      && w.pc != ToCreate
      && (w.pc != ToMark ==> w.status == Completed)
      && (w.errs.Some? ==> w.errs.value < n)
  }

  /** All pointers to `SchemaErrors` in a map lie in the heap. */
  predicate MapIn(m: map<string, Option<nat>>, n: nat) {
    forall s :: s in m && m[s].Some? ==> m[s].value < n
  }

  /** A pointer found in an error lies in the heap as all of them do. */
  lemma {:induction false} FoundRefs(e: GoErr<nat>, n: nat)
    requires RefsIn(e, n)
    ensures AsErrorsPtr<nat>(e).Some? ==> MapIn(AsErrorsPtr<nat>(e).value, n)
    ensures AsSchemaErrors<nat>(e).Some? && AsSchemaErrors<nat>(e).value.Some? ==>
              AsSchemaErrors<nat>(e).value.value < n
    decreases e, 1
  {
    match e
    case Wrapped(causes) => FoundRefsIn(causes, n);
    case _ =>
  }

  lemma {:induction false} FoundRefsIn(causes: seq<GoErr<nat>>, n: nat)
    requires forall i :: 0 <= i < |causes| ==> RefsIn(causes[i], n)
    ensures AsErrorsPtrOf<nat>(causes).Some? ==> MapIn(AsErrorsPtrOf<nat>(causes).value, n)
    ensures AsSchemaErrorsOf<nat>(causes).Some? && AsSchemaErrorsOf<nat>(causes).value.Some? ==>
              AsSchemaErrorsOf<nat>(causes).value.value < n
    decreases causes, 0
  {
    if causes == [] {
    } else {
      FoundRefs(causes[0], n);
      FoundRefsIn(causes[1..], n);
    }
  }

  lemma PickRefs(schema: string, err: Option<GoErr<nat>>, text: string, n: nat)
    requires err.Some? ==> RefsIn(err.value, n)
    ensures var pick := GetSchemaErrors<nat>(schema, err, text);
            if pick.Existing? then pick.ref.Some? ==> pick.ref.value < n else pick.errs.globals == [text]
  {
    if err.Some? {
      FoundRefs(err.value, n);
    }
  }

  /** A step of worker `i` that leaves the others, the plan and the reported errors alone. */
  lemma WorkerShape(st: State, next: State, i: nat, w: Worker)
    requires Shape(st) && st.phase != Idle && i < |st.workers|
    requires next.workers == st.workers[i := w] && |st.heap| <= |next.heap|
    requires next.phase == st.phase && next.plan == st.plan && next.order == st.order
    requires next.reported == st.reported && next.genErr == st.genErr
    requires w.schema == st.workers[i].schema && w.tables == st.workers[i].tables
    requires Fits(st.phase, w, |next.heap|)
    ensures Shape(next)
  {
    forall j | 0 <= j < |next.workers| ensures Owns(next, j) {
      assert Owns(st, j);
    }
  }

  lemma MarkingShape(st: State, i: nat, outcome: Outcome)
    requires Shape(st) && st.phase == Marking && i < |st.workers|
    ensures Shape(MarkingStep(st, i, outcome))
  {
    var next := MarkingStep(st, i, outcome);
    assert Owns(st, i);
    WorkerShape(st, next, i, next.workers[i]);
  }

  lemma CompleteRequestShape(st: State, i: nat, text: string)
    requires Shape(st) && st.phase == Completing && i < |st.workers|
    ensures Shape(CompleteRequest(st, i, text))
  {
    var next := CompleteRequest(st, i, text);
    assert Owns(st, i);
    PickRefs(st.workers[i].schema, st.genErr, text, |st.reported|);
    WorkerShape(st, next, i, next.workers[i]);
  }

  lemma CompletingShape(st: State, i: nat, outcome: Outcome, text: string)
    requires Shape(st) && st.phase == Completing && i < |st.workers|
    ensures Shape(CompletingStep(st, i, outcome, text))
  {
    assert Owns(st, i);
    match st.workers[i].pc
    case ToNote(msg) =>
      var next := NoteFailure(st, i, msg);
      WorkerShape(st, next, i, next.workers[i]);
    case ToUpdate =>
      var next := StoreCompleted(st, i, outcome);
      WorkerShape(st, next, i, next.workers[i]);
    case _ => CompleteRequestShape(st, i, text);
  }

  lemma StartShape(repeatable: bool, st: State, asked: Tables, plan: Tables, order: seq<string>)
    requires Enabled(repeatable, st, Start(asked, None, plan, order))
    ensures Shape(Apply(repeatable, st, Start(asked, None, plan, order)))
  {
    var next := Apply(repeatable, st, Start(asked, None, plan, order));
    if next.phase != Idle {
      forall j | 0 <= j < |next.workers| ensures Owns(next, j) {
        assert order[j] in order;
      }
    }
  }

  lemma GenerateShape(repeatable: bool, st: State, err: Option<GoErr<nat>>, heap: seq<Errs>)
    requires Shape(st) && Enabled(repeatable, st, Generate(err, heap))
    ensures Shape(Apply(repeatable, st, Generate(err, heap)))
  {
    var next := Apply(repeatable, st, Generate(err, heap));
    forall j | 0 <= j < |next.workers| ensures Owns(next, j) {
      assert Owns(st, j);
    }
  }

  lemma ShapeKept(repeatable: bool, st: State, step: Step)
    requires Shape(st) && Enabled(repeatable, st, step)
    ensures Shape(Apply(repeatable, st, step))
  {
    match step
    case Work(i, outcome, text) =>
      if st.phase == Marking { MarkingShape(st, i, outcome); } else { CompletingShape(st, i, outcome, text); }
    case Generate(err, heap) => GenerateShape(repeatable, st, err, heap);
    case Start(asked, readError, plan, order) =>
      if readError.None? { StartShape(repeatable, st, asked, plan, order); }
    case _ =>
  }
}
