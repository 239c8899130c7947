/** What becomes of a final update that fails when the wrapped generator has failed as well. */
module SnapshotFailures {
  import opened Text
  import opened SnapshotRequests
  import opened SnapshotStore
  import opened SnapshotRecorder
  import opened SnapshotSafety

  /** The object the worker points to holds more errors than it was reported with. */
  predicate HasNote(st: State, w: Worker) {
    w.errs.Some? ==>
      && w.errs.value < |st.heap| && st.heap[w.errs.value].globals != []
      && (w.errs.value < |st.reported| ==>
            |st.reported[w.errs.value].globals| < |st.heap[w.errs.value].globals|)
  }

  /** The objects as reported have only gained errors. */
  predicate OnlyGained(st: State) {
    |st.reported| <= |st.heap|
    && forall r :: 0 <= r < |st.reported| ==> st.reported[r].globals <= st.heap[r].globals
  }

  predicate NeedsNote(st: State, w: Worker) {
    st.genErr.Some? && w.pc == Finished && !w.stored
  }

  ghost predicate NotedInv(st: State) {
    Shape(st)
    && (st.phase == Completing ==>
          && OnlyGained(st)
          && forall i :: 0 <= i < |st.workers| && NeedsNote(st, st.workers[i]) ==> HasNote(st, st.workers[i]))
  }

  lemma NoteKept(st: State, next: State, w: Worker)
    requires HasNote(st, w) && next.reported == st.reported && |st.heap| <= |next.heap|
    requires forall r :: 0 <= r < |st.heap| ==> st.heap[r].globals <= next.heap[r].globals
    ensures HasNote(next, w)
  {
  }

  /** A step that gives one worker its note, or none a need for it. */
  lemma NotedStep(st: State, next: State, i: nat)
    requires NotedInv(st) && st.phase == Completing && i < |st.workers| && Shape(next) && next.phase == Completing
    requires |next.workers| == |st.workers| && next.workers == st.workers[i := next.workers[i]]
    requires next.reported == st.reported && next.genErr == st.genErr && |st.heap| <= |next.heap|
    requires forall r :: 0 <= r < |st.heap| ==> st.heap[r].globals <= next.heap[r].globals
    requires NeedsNote(next, next.workers[i]) ==> HasNote(next, next.workers[i])
    ensures NotedInv(next)
  {
    forall j | 0 <= j < |next.workers| && NeedsNote(next, next.workers[j]) ensures HasNote(next, next.workers[j]) {
      if j != i {
        NoteKept(st, next, st.workers[j]);
      }
    }
  }

  lemma NoteFailureNoted(st: State, i: nat, msg: string)
    requires NotedInv(st) && st.phase == Completing && i < |st.workers| && st.workers[i].pc == ToNote(msg)
    ensures NotedInv(NoteFailure(st, i, msg))
  {
    var next := NoteFailure(st, i, msg);
    assert Owns(st, i);
    WorkerShape(st, next, i, next.workers[i]);
    NotedStep(st, next, i);
  }

  lemma StoreCompletedNoted(st: State, i: nat, outcome: Outcome)
    requires NotedInv(st) && st.phase == Completing && i < |st.workers| && st.workers[i].pc == ToUpdate
    ensures NotedInv(StoreCompleted(st, i, outcome))
  {
    var next := StoreCompleted(st, i, outcome);
    assert Owns(st, i);
    WorkerShape(st, next, i, next.workers[i]);
    NotedStep(st, next, i);
  }

  lemma CompleteRequestNoted(st: State, i: nat, text: string)
    requires NotedInv(st) && st.phase == Completing && i < |st.workers|
    ensures NotedInv(CompleteRequest(st, i, text))
  {
    CompleteRequestShape(st, i, text);
    NotedStep(st, CompleteRequest(st, i, text), i);
  }

  lemma NotedKept(repeatable: bool, st: State, step: Step)
    requires NotedInv(st) && Enabled(repeatable, st, step)
    ensures NotedInv(Apply(repeatable, st, step))
  {
    ShapeKept(repeatable, st, step);
    match step
    case Work(i, outcome, text) =>
      if st.phase == Completing {
        match st.workers[i].pc
        case ToNote(msg) => NoteFailureNoted(st, i, msg);
        case ToUpdate => StoreCompletedNoted(st, i, outcome);
        case _ => CompleteRequestNoted(st, i, text);
      }
    case _ =>
  }

  lemma {:induction false} NotedAlways(repeatable: bool, st: State, steps: seq<Step>)
    requires NotedInv(st) && Runs(repeatable, st, steps)
    ensures NotedInv(Exec(repeatable, st, steps))
    decreases |steps|
  {
    if steps == [] {
    } else {
      NotedKept(repeatable, st, steps[0]);
      NotedAlways(repeatable, Apply(repeatable, st, steps[0]), steps[1..]);
    }
  }

  /** In every run that ends with the generator's error, each worker whose final update failed has left
      an error more in the object the generator reported for its schema; and nothing that was reported
      is lost. */
  lemma FailedUpdateIsNoted(repeatable: bool, init: State, steps: seq<Step>, st: State, i: nat, r: nat)
    requires init.phase == Idle && Runs(repeatable, init, steps) && st == Exec(repeatable, init, steps)
    requires st.phase == Completing && AllFinished(st) && st.genErr.Some?
    requires i < |st.workers| && st.workers[i].errs == Some(r) && r < |st.reported|
    ensures r < |st.heap| && st.reported[r].globals <= st.heap[r].globals
    ensures !st.workers[i].stored ==> |st.reported[r].globals| < |st.heap[r].globals|
  {
    NotedAlways(repeatable, init, steps);
    assert !st.workers[i].stored ==> NeedsNote(st, st.workers[i]);
  }
}
