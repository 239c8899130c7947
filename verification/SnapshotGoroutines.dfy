/** The bodies of the recorder's goroutines over the objects the program mutates, each proved to do
    what its steps in the state machine do one after the other. */
module SnapshotGoroutines {
  import opened Text
  import opened SnapshotRequests
  import SnapshotStore
  import opened SnapshotRecorder

  class RequestStore {
    var rows: SnapshotStore.Store

    constructor (rows: SnapshotStore.Store)
      ensures this.rows == rows
    {
      this.rows := rows;
    }

    method CreateSnapshotRequest(req: Request, outcome: Outcome) returns (err: Option<string>)
      modifies this
      ensures rows == Effect(old(rows), old(rows) + [SnapshotStore.Inserted(req.View())], outcome)
      ensures err == FailureOf(outcome)
    {
      rows := Effect(rows, rows + [SnapshotStore.Inserted(req.View())], outcome);
      return FailureOf(outcome);
    }

    method UpdateSnapshotRequest(req: Request, outcome: Outcome) returns (err: Option<string>)
      modifies this
      ensures rows == Effect(old(rows), SnapshotStore.Update(old(rows), req.View()), outcome)
      ensures err == FailureOf(outcome)
    {
      rows := Effect(rows, SnapshotStore.Update(rows, req.View()), outcome);
      return FailureOf(outcome);
    }
  }

  /** `createRequests`: a new request without status for each schema, in the order the map is ranged over. */
  method CreateRequests(plan: SnapshotStore.Tables) returns (requests: seq<Request>, order: seq<string>)
    ensures IsListingOf(order, plan.Keys) && |requests| == |order|
    ensures forall i :: 0 <= i < |requests| ==>
              fresh(requests[i]) && requests[i].View() == NewWorkers(plan, order)[i].Record([])
    ensures forall i, j :: 0 <= i < j < |requests| ==> requests[i] != requests[j]
  {
    order := ListKeys(plan.Keys);
    requests := [];
    for i := 0 to |order|
      invariant |requests| == i
      invariant forall j :: 0 <= j < i ==>
                  fresh(requests[j]) && requests[j].View() == Row(order[j], plan[order[j]], Unset, None)
      invariant forall j, k :: 0 <= j < k < i ==> requests[j] != requests[k]
    {
      var req := new Request(order[i], plan[order[i]]);
      requests := requests + [req];
    }
  }

  // ---------- the in-progress phase ----------

  /** The steps of goroutine `i`, from its first to its last. */
  function Marked(st: State, i: nat, create: Outcome, update: Outcome): State
    requires i < |st.workers| && st.workers[i].pc == ToCreate
  {
    var created := MarkingStep(st, i, create);
    if create.Failed? then created else MarkingStep(MarkingStep(created, i, Succeeded), i, update)
  }

  /** `req` is the request of goroutine `i`. */
  ghost predicate IsRequestOf(st: State, i: nat, store: RequestStore, req: Request)
    reads store, req, req.errors
  {
    i < |st.workers| && store.rows == st.store && req.View() == st.workers[i].Record(st.heap)
  }

  method MarkOneInProgress(store: RequestStore, req: Request, create: Outcome, update: Outcome,
                           ghost st: State, ghost i: nat)
    returns (err: Option<string>)
    requires IsRequestOf(st, i, store, req) && st.workers[i].pc == ToCreate
    modifies store, req`status
    ensures var end := Marked(st, i, create, update);
            && IsRequestOf(end, i, store, req) && end.workers[i].pc == Finished
            && end.firstErr == FirstOf(st.firstErr, err)
  {
    err := store.CreateSnapshotRequest(req, create);
    if err.Some? {
      return;
    }
    req.MarkInProgress();
    err := store.UpdateSnapshotRequest(req, update);
  }

  // ---------- the completion phase ----------

  /** The final update, and a note of its failure if the snapshot failed before. */
  function Stored(st: State, i: nat, outcome: Outcome): State
    requires i < |st.workers|
  {
    var stored := StoreCompleted(st, i, outcome);
    if outcome.Failed? && st.genErr.Some? then NoteFailure(stored, i, outcome.msg) else stored
  }

  /** The steps of goroutine `i`, from its first to its last. */
  function Done(st: State, i: nat, text: string, outcome: Outcome): State
    requires i < |st.workers|
  {
    Stored(CompleteRequest(st, i, text), i, outcome)
  }

  /** The objects, all different, hold what the heap says. */
  ghost predicate Holds(objs: seq<SchemaErrors>, heap: seq<Errs>)
    reads set o | o in objs
  {
    && |objs| == |heap|
    && (forall k :: 0 <= k < |objs| ==> objs[k].View() == heap[k])
    && (forall j, k :: 0 <= j < k < |objs| ==> objs[j] != objs[k])
  }

  /** The pointer of the program and the pointer into the heap are the same. */
  ghost predicate SamePointer(e: SchemaErrors?, objs: seq<SchemaErrors>, ref: Option<nat>) {
    match ref
    case None => e == null
    case Some(r) => r < |objs| && e == objs[r]
  }

  /** `getSchemaErrors`: a pointer found in the error, nil or not, or a new object. */
  method GetErrors(schema: string, err: Option<GoErr<nat>>, text: string, objs: seq<SchemaErrors>,
                   ghost heap: seq<Errs>)
    returns (schemaErrs: SchemaErrors?, all: seq<SchemaErrors>)
    requires Holds(objs, heap) && (err.Some? ==> RefsIn(err.value, |objs|))
    ensures match GetSchemaErrors<nat>(schema, err, text)
            case Existing(ref) => all == objs && SamePointer(schemaErrs, all, ref)
            case Fresh(e) => |all| == |objs| + 1 && objs <= all && schemaErrs == all[|objs|] && fresh(schemaErrs)
                             && Holds(all, heap + [e])
  {
    PickRefs(schema, err, text, |objs|);
    match GetSchemaErrors<nat>(schema, err, text) {
      case Existing(ref) =>
        all, schemaErrs := objs, null;
        if ref.Some? {
          schemaErrs := objs[ref.value];
        }
      case Fresh(e) =>
        var created := new SchemaErrors(e);
        all, schemaErrs := objs + [created], created;
    }
  }

  /** Recording a pointer in the request, through the error interface: a nil one as well. */
  method MarkWith(req: Request, schemaErrs: SchemaErrors?)
    modifies req`status, req`errors
    ensures req.errors == schemaErrs && req.status == Completed
  {
    req.MarkCompleted(req.schema, Some(SchemaErrs(if schemaErrs == null then None else Some(schemaErrs))), "");
  }

  /** `AddGlobalError` on whatever the pointer leads to. */
  method Note(schemaErrs: SchemaErrors?, msg: string, objs: seq<SchemaErrors>, ghost ref: Option<nat>,
              ghost heap: seq<Errs>)
    requires Holds(objs, heap) && SamePointer(schemaErrs, objs, ref)
    modifies schemaErrs
    ensures Holds(objs, WithNote(heap, ref, msg))
    ensures SchemaErrors.ViewOf(schemaErrs) == Deref(WithNote(heap, ref, msg), ref)
  {
    SchemaErrors.AddGlobalError(schemaErrs, msg);
  }

  /** The goroutine from its final update on. */
  method StoreOne(store: RequestStore, req: Request, objs: seq<SchemaErrors>, err: Option<GoErr<nat>>,
                  schemaErrs: SchemaErrors?, outcome: Outcome, ghost st: State, ghost i: nat)
    returns (result: Option<string>)
    requires IsRequestOf(st, i, store, req) && st.genErr == err
    requires Holds(objs, st.heap) && SamePointer(schemaErrs, objs, st.workers[i].errs) && req.errors == schemaErrs
    modifies store, schemaErrs
    ensures var end := Stored(st, i, outcome);
            && IsRequestOf(end, i, store, req) && Holds(objs, end.heap) && end.workers[i].pc == Finished
            && end.firstErr == FirstOf(st.firstErr, result)
  {
    var updateErr := store.UpdateSnapshotRequest(req, outcome);
    if updateErr.Some? {
      if err == None {
        return updateErr;
      }
      Note(schemaErrs, updateErr.value, objs, st.workers[i].errs, st.heap);
    }
    return None;
  }

  /** `objs` are the error objects that the wrapped error and the requests point to. */
  method MarkOneCompleted(store: RequestStore, req: Request, objs: seq<SchemaErrors>, err: Option<GoErr<nat>>,
                          text: string, outcome: Outcome, ghost st: State, ghost i: nat)
    returns (result: Option<string>, all: seq<SchemaErrors>)
    requires IsRequestOf(st, i, store, req) && st.workers[i].pc == ToMark && st.genErr == err
    requires Holds(objs, st.heap) && (err.Some? ==> RefsIn(err.value, |objs|))
    modifies store, req`status, req`errors, set o | o in objs
    ensures var end := Done(st, i, text, outcome);
            && IsRequestOf(end, i, store, req) && Holds(all, end.heap) && end.workers[i].pc == Finished
            && end.firstErr == FirstOf(st.firstErr, result)
  {
    var schemaErrs;
    schemaErrs, all := GetErrors(req.schema, err, text, objs, st.heap);
    MarkWith(req, schemaErrs);
    result := StoreOne(store, req, all, err, schemaErrs, outcome, CompleteRequest(st, i, text), i);
  }
}
