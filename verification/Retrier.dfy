/** The retrying querier: which runs of an operation a call makes, and who owns its connection. */
module Retrier {
  import opened Text
  import opened PgErrors

  // ---------- the backoff ----------

  datatype Config = Config(disableRetries: bool, constant: Option<nat>, exponential: Option<nat>)

  /** When a failed attempt may be followed by another: at most `maxRetries` times unless that is
      0, and only `limit` times by the underlying policy (its elapsed time, or its end). */
  datatype Schedule = Schedule(maxRetries: nat, limit: nat) {
    predicate Allows(tries: nat) {
      (maxRetries > 0 ==> tries < maxRetries) && tries < limit
    }
  }

  /** `NewProvider`: constant before exponential, and no retries without either; the numbers are
      the configured MaxRetries. It does not look at `disableRetries`. */
  function ScheduleFor(cfg: Config, limit: nat): Schedule {
    match cfg.constant
    case Some(max) => Schedule(max, limit)
    case None =>
      match cfg.exponential
      case Some(max) => Schedule(max, limit)
      case None => Schedule(0, 0)
  }

  // ---------- what a call does ----------

  /** What happens at one attempt: the operation's outcome, the outcome of building a new
      connection, and, if the context is done by then, the error with which the policy ends the
      call (the context's own or the attempt's). */
  datatype Attempt = Attempt(op: Option<Error>, conn: Option<Error>, ctx: Option<Error>)

  /** The surroundings of one call: the first run's outcome and those of all later attempts. */
  datatype World = World(first: Option<Error>, attempts: nat -> Attempt, schedule: Schedule)

  datatype Event = Ran(result: Option<Error>) | Reset(ok: bool)

  /** What the retried closure returns for an attempt that failed with a retriable error. */
  function Failure(a: Attempt, e: Error): Error {
    if a.conn.Some? then Wrap([a.conn.value]) else e
  }

  /** An attempt of the retried closure: its events and what it returns. */
  function Try(a: Attempt): (seq<Event>, Option<Error>) {
    if a.op == None then ([Ran(None)], None)
    else if !IsRetriable(a.op.value) then ([Ran(a.op)], Some(Wrap([a.op.value, Permanent])))
    else ([Ran(a.op), Reset(a.conn == None)], Some(Failure(a, a.op.value)))
  }

  /** Whether the backoff goes on after attempt `k` returned `err`. */
  predicate GoesOn(w: World, k: nat, err: Option<Error>) {
    err.Some? && !Is(err.value, Permanent) && w.attempts(k).ctx == None && w.schedule.Allows(k)
  }

  /** What a backoff that does not go on returns. */
  function Final(a: Attempt, err: Option<Error>): Option<Error> {
    if err.Some? && !Is(err.value, Permanent) && a.ctx.Some? then a.ctx else err
  }

  /** The backoff loop from attempt `k` on: its events and what it returns. */
  function RetryFrom(w: World, k: nat): (seq<Event>, Option<Error>)
    decreases w.schedule.limit - k
  {
    var (events, err) := Try(w.attempts(k));
    if GoesOn(w, k, err) then
      var (more, result) := RetryFrom(w, k + 1);
      (events + more, result)
    else (events, Final(w.attempts(k), err))
  }

  /** `withRetry`. */
  function CallTrace(w: World): (seq<Event>, Option<Error>) {
    if w.first == None || !IsRetriable(w.first.value) then ([Ran(w.first)], w.first)
    else
      var (events, result) := RetryFrom(w, 0);
      ([Ran(w.first)] + events, result)
  }

  function RunCount(events: seq<Event>): nat {
    if events == [] then 0 else (if events[0].Ran? then 1 else 0) + RunCount(events[1..])
  }

  function Rebuilds(events: seq<Event>): nat {
    if events == [] then 0 else (if events[0] == Reset(true) then 1 else 0) + Rebuilds(events[1..])
  }

  /** An operation that ended the call: a success or an error that is not retried. */
  predicate Ends(e: Event) {
    e.Ran? && (e.result == None || !IsRetriable(e.result.value))
  }

  /** Runs and resets take turns, beginning with a run. */
  ghost predicate Alternates(events: seq<Event>) {
    forall i :: 0 <= i < |events| ==> (events[i].Ran? <==> i % 2 == 0)
  }

  /** The outcome of the last run. */
  function LastOutcome(events: seq<Event>): Option<Option<Error>> {
    if events == [] then None
    else if events[|events| - 1].Ran? then Some(events[|events| - 1].result)
    else LastOutcome(events[..|events| - 1])
  }

  lemma {:induction false} LastOutcomeAppend(a: seq<Event>, b: seq<Event>)
    ensures LastOutcome(a + b) == if LastOutcome(b).Some? then LastOutcome(b) else LastOutcome(a)
  {
    if b == [] {
      assert a + b == a;
    } else {
      LastOutcomeAppend(a, b[..|b| - 1]);
      assert (a + b)[..|a + b| - 1] == a + b[..|b| - 1];
    }
  }

  lemma {:induction false} RunsAppend(a: seq<Event>, b: seq<Event>)
    ensures RunCount(a + b) == RunCount(a) + RunCount(b) && Rebuilds(a + b) == Rebuilds(a) + Rebuilds(b)
  {
    if a == [] {
      assert a + b == b;
    } else {
      RunsAppend(a[1..], b);
      assert (a + b)[1..] == a[1..] + b;
    }
  }

  lemma OneEvent(e: Event)
    ensures RunCount([e]) == (if e.Ran? then 1 else 0) && Rebuilds([e]) == (if e == Reset(true) then 1 else 0)
    ensures LastOutcome([e]) == if e.Ran? then Some(e.result) else None
  {
    assert [e][1..] == [] && [e][..0] == [];
  }

  /** A failed attempt: the run and the reset that follows it. */
  lemma Attempted(e: Option<Error>, ok: bool)
    ensures RunCount([Ran(e), Reset(ok)]) == 1 && LastOutcome([Ran(e), Reset(ok)]) == Some(e)
  {
    OneEvent(Ran(e));
    OneEvent(Reset(ok));
    RunsAppend([Ran(e)], [Reset(ok)]);
    LastOutcomeAppend([Ran(e)], [Reset(ok)]);
    assert [Ran(e)] + [Reset(ok)] == [Ran(e), Reset(ok)];
  }

  /** What holds of the backoff loop's events. */
  ghost predicate GoodTail(events: seq<Event>, result: Option<Error>) {
    && events != [] && Alternates(events)
    && (forall i :: 0 <= i < |events| && Ends(events[i]) ==> i == |events| - 1)
    && LastOutcome(events).Some?
    && (result == None <==> LastOutcome(events) == Some(None))
  }

  lemma Chained(e: Error, ok: bool, more: seq<Event>, result: Option<Error>)
    requires IsRetriable(e) && GoodTail(more, result)
    ensures GoodTail([Ran(Some(e)), Reset(ok)] + more, result)
  {
    LastOutcomeAppend([Ran(Some(e)), Reset(ok)], more);
  }

  /** An attempt after which the backoff stops. */
  lemma LastTry(w: World, k: nat)
    ensures RunCount(Try(w.attempts(k)).0) == 1
    ensures var (events, err) := Try(w.attempts(k));
            !GoesOn(w, k, err) ==> GoodTail(events, Final(w.attempts(k), err))
  {
    var a := w.attempts(k);
    if a.op == None || !IsRetriable(a.op.value) {
      OneEvent(Ran(a.op));
    } else {
      Attempted(a.op, a.conn == None);
    }
  }

  lemma NotStoppedYet(a: Attempt)
    requires Try(a).1.Some? && !Is(Try(a).1.value, Permanent)
    ensures a.op.Some? && IsRetriable(a.op.value)
  {
    if a.op.Some? && !IsRetriable(a.op.value) {
      var causes := [a.op.value, Permanent];
      assert Is(causes[1], Permanent);
      assert Is(Wrap(causes), Permanent);
    }
  }

  lemma {:induction false} RetryFromShape(w: World, k: nat)
    ensures GoodTail(RetryFrom(w, k).0, RetryFrom(w, k).1)
    decreases w.schedule.limit - k
  {
    LastTry(w, k);
    var a := w.attempts(k);
    if GoesOn(w, k, Try(a).1) {
      NotStoppedYet(a);
      RetryFromShape(w, k + 1);
      Chained(a.op.value, a.conn == None, RetryFrom(w, k + 1).0, RetryFrom(w, k + 1).1);
    }
  }

  /** An attempt after which the backoff goes on adds one run. */
  lemma OneMore(w: World, k: nat)
    requires GoesOn(w, k, Try(w.attempts(k)).1)
    ensures RunCount(RetryFrom(w, k).0) == 1 + RunCount(RetryFrom(w, k + 1).0)
    ensures RetryFrom(w, k).1 == RetryFrom(w, k + 1).1
  {
    LastTry(w, k);
    RunsAppend(Try(w.attempts(k)).0, RetryFrom(w, k + 1).0);
  }

  /** The backoff goes on at most up to attempt `b`. */
  ghost predicate StopsBy(w: World, b: nat) {
    forall k: nat :: GoesOn(w, k, Try(w.attempts(k)).1) ==> k < b
  }

  lemma {:induction false} RunsBounded(w: World, k: nat, b: nat)
    requires StopsBy(w, b) && k <= b
    ensures RunCount(RetryFrom(w, k).0) <= b - k + 1
    decreases b - k
  {
    if GoesOn(w, k, Try(w.attempts(k)).1) {
      RunsBounded(w, k + 1, b);
      OneMore(w, k);
    } else {
      LastRun(w, k);
    }
  }

  lemma RetryFromRuns(w: World)
    ensures w.schedule.maxRetries > 0 ==> RunCount(RetryFrom(w, 0).0) <= w.schedule.maxRetries + 1
    ensures RunCount(RetryFrom(w, 0).0) <= w.schedule.limit + 1
  {
    assert StopsBy(w, w.schedule.limit);
    RunsBounded(w, 0, w.schedule.limit);
    if w.schedule.maxRetries > 0 {
      assert StopsBy(w, w.schedule.maxRetries);
      RunsBounded(w, 0, w.schedule.maxRetries);
    }
  }

  lemma LastRun(w: World, k: nat)
    requires !GoesOn(w, k, Try(w.attempts(k)).1)
    ensures RunCount(RetryFrom(w, k).0) == 1
  {
    LastTry(w, k);
  }

  /** Every trace of a call: no run after a success or an error that is not retried; a reset
      attempted between any two runs from the second on; nil exactly if the last run succeeded;
      and at most MaxRetries + 2 runs when MaxRetries is set. */
  lemma TraceOfCall(w: World)
    ensures var (events, result) := CallTrace(w);
            && events != [] && events[0] == Ran(w.first)
            && (forall i :: 0 <= i < |events| && Ends(events[i]) ==> i == |events| - 1)
            && Alternates(events[1..])
            && LastOutcome(events).Some? && (result == None <==> LastOutcome(events) == Some(None))
            && (w.schedule.maxRetries > 0 ==> RunCount(events) <= w.schedule.maxRetries + 2)
            && RunCount(events) <= w.schedule.limit + 2
  {
    var first := [Ran(w.first)];
    OneEvent(Ran(w.first));
    assert first[1..] == [];
    if w.first.Some? && IsRetriable(w.first.value) {
      RetryFromShape(w, 0);
      RetryFromRuns(w);
      var events := RetryFrom(w, 0).0;
      LastOutcomeAppend(first, events);
      RunsAppend(first, events);
      assert (first + events)[1..] == events;
    }
  }

  /** Without a constant or exponential policy an operation that keeps failing still runs twice,
      and never more. */
  lemma NoPolicyRunsTwice(cfg: Config, w: World, limit: nat)
    requires cfg.constant == None && cfg.exponential == None && w.schedule == ScheduleFor(cfg, limit)
    ensures RunCount(CallTrace(w).0) == if w.first.Some? && IsRetriable(w.first.value) then 2 else 1
  {
    OneEvent(Ran(w.first));
    LastTry(w, 0);
    RunsAppend([Ran(w.first)], RetryFrom(w, 0).0);
  }

  // ---------- that it does retry ----------

  /** How many attempts of the backoff may be followed by another. */
  function Allowed(s: Schedule): (n: nat)
    ensures forall k: nat :: s.Allows(k) <==> k < n
  {
    if 0 < s.maxRetries < s.limit then s.maxRetries else s.limit
  }

  /** An attempt that fails without giving a reason to stop. */
  predicate Transient(w: World, k: nat) {
    var a := w.attempts(k);
    a.op.Some? && IsRetriable(a.op.value) && a.ctx == None && !Is(Failure(a, a.op.value), Permanent)
  }

  lemma TransientGoesOn(w: World, k: nat)
    requires Transient(w, k) && k < Allowed(w.schedule)
    ensures GoesOn(w, k, Try(w.attempts(k)).1)
  {
  }

  /** The backoff reaches attempt `n` from attempt `k` on. */
  predicate Reaches(w: World, k: nat, n: nat)
    decreases n - k
  {
    k >= n || (GoesOn(w, k, Try(w.attempts(k)).1) && Reaches(w, k + 1, n))
  }

  lemma {:induction false} TransientReaches(w: World, k: nat, n: nat)
    requires k <= n <= Allowed(w.schedule) && forall j :: k <= j < n ==> Transient(w, j)
    ensures Reaches(w, k, n)
    decreases n - k
  {
    if k == n {
    } else {
      assert Transient(w, k);
      TransientGoesOn(w, k);
      TransientReaches(w, k + 1, n);
    }
  }

  lemma {:induction false} GoesOnTo(w: World, k: nat, n: nat)
    requires k <= n && Reaches(w, k, n)
    ensures RunCount(RetryFrom(w, k).0) == n - k + RunCount(RetryFrom(w, n).0) && RetryFrom(w, k).1 == RetryFrom(w, n).1
    decreases n - k
  {
    if k == n {
    } else {
      OneMore(w, k);
      GoesOnTo(w, k + 1, n);
    }
  }

  /** Transient failures are retried as long as the policy allows: the first success within it
      ends the call with nil, after exactly the runs it took. */
  lemma SucceedsWhenAllowed(w: World, n: nat)
    requires w.first.Some? && IsRetriable(w.first.value)
    requires n <= Allowed(w.schedule) && (forall k :: 0 <= k < n ==> Transient(w, k)) && w.attempts(n).op == None
    ensures CallTrace(w).1 == None && RunCount(CallTrace(w).0) == n + 2
  {
    TransientReaches(w, 0, n);
    GoesOnTo(w, 0, n);
    LastTry(w, n);
    OneEvent(Ran(w.first));
    RunsAppend([Ran(w.first)], RetryFrom(w, 0).0);
  }

  /** And if every attempt fails so, all the allowed runs are made and the last failure is returned. */
  lemma GivesUpAtTheEnd(w: World)
    requires w.first.Some? && IsRetriable(w.first.value)
    requires forall k :: 0 <= k <= Allowed(w.schedule) ==> Transient(w, k)
    ensures var last := w.attempts(Allowed(w.schedule));
            last.op.Some? && CallTrace(w).1 == Some(Failure(last, last.op.value))
    ensures RunCount(CallTrace(w).0) == Allowed(w.schedule) + 2
  {
    var n := Allowed(w.schedule);
    assert Transient(w, n) && !w.schedule.Allows(n);
    TransientReaches(w, 0, n);
    GoesOnTo(w, 0, n);
    LastTry(w, n);
    OneEvent(Ran(w.first));
    RunsAppend([Ran(w.first)], RetryFrom(w, 0).0);
  }

  /** What a call returns after an error that is not retried is that error, or wraps it. */
  lemma {:induction false} RetryFromCause(w: World, k: nat, e: Error)
    requires LastOutcome(RetryFrom(w, k).0) == Some(Some(e)) && !IsRetriable(e)
    ensures RetryFrom(w, k).1.Some? && Is(RetryFrom(w, k).1.value, e)
    decreases w.schedule.limit - k
  {
    var a := w.attempts(k);
    if GoesOn(w, k, Try(a).1) {
      RetryFromShape(w, k + 1);
      LastOutcomeAppend(Try(a).0, RetryFrom(w, k + 1).0);
      RetryFromCause(w, k + 1, e);
    } else {
      LastTryCause(w, k, e);
    }
  }

  lemma LastTryCause(w: World, k: nat, e: Error)
    requires LastOutcome(Try(w.attempts(k)).0) == Some(Some(e)) && !IsRetriable(e)
    ensures var result := Final(w.attempts(k), Try(w.attempts(k)).1); result.Some? && Is(result.value, e)
  {
    var a := w.attempts(k);
    if a.op.Some? && IsRetriable(a.op.value) {
      Attempted(a.op, a.conn == None);
    } else {
      OneEvent(Ran(a.op));
      var causes := [e, Permanent];
      assert Is(causes[0], e) && Is(causes[1], Permanent);
      assert Is(Wrap(causes), e) && Is(Wrap(causes), Permanent);
    }
  }

  lemma ReturnsCause(w: World, e: Error)
    requires LastOutcome(CallTrace(w).0) == Some(Some(e)) && !IsRetriable(e)
    ensures CallTrace(w).1.Some? && Is(CallTrace(w).1.value, e)
  {
    OneEvent(Ran(w.first));
    if w.first.Some? && IsRetriable(w.first.value) {
      RetryFromShape(w, 0);
      LastOutcomeAppend([Ran(w.first)], RetryFrom(w, 0).0);
      RetryFromCause(w, 0, e);
    }
  }

  /** When the last attempt could not build a connection, that is what the call returns, and otherwise
      the operation's own error. */
  lemma ReturnsLastFailure(w: World)
    requires w.first.Some? && IsRetriable(w.first.value)
    requires forall k :: 0 <= k <= Allowed(w.schedule) ==> Transient(w, k)
    ensures var last, result := w.attempts(Allowed(w.schedule)), CallTrace(w).1;
            if last.conn.Some? then result.Some? && Is(result.value, last.conn.value) else result == last.op
  {
    GivesUpAtTheEnd(w);
    var last := w.attempts(Allowed(w.schedule));
    if last.conn.Some? {
      var causes := [last.conn.value];
      assert Is(causes[0], last.conn.value);
      assert Is(Wrap(causes), last.conn.value);
    }
  }

  /** A context that is done ends the call with its own error, at the first attempt after that. */
  lemma ContextEnds(w: World, n: nat)
    requires w.first.Some? && IsRetriable(w.first.value)
    requires n <= Allowed(w.schedule) && forall k :: 0 <= k < n ==> Transient(w, k)
    requires var a := w.attempts(n); a.op.Some? && IsRetriable(a.op.value) && a.ctx.Some?
                                     && !Is(Failure(a, a.op.value), Permanent)
    ensures CallTrace(w).1 == w.attempts(n).ctx && RunCount(CallTrace(w).0) == n + 2
  {
    TransientReaches(w, 0, n);
    GoesOnTo(w, 0, n);
    LastTry(w, n);
    OneEvent(Ran(w.first));
    RunsAppend([Ran(w.first)], RetryFrom(w, 0).0);
  }

  /** The constant policy goes before the exponential one, and its MaxRetries decides: an operation that
      keeps failing is run that often and twice more. */
  lemma ConfiguredRuns(cfg: Config, w: World, limit: nat, max: nat)
    requires if cfg.constant.Some? then cfg.constant == Some(max) else cfg.exponential == Some(max)
    requires w.schedule == ScheduleFor(cfg, limit) && 0 < max < limit
    requires w.first.Some? && IsRetriable(w.first.value) && forall k :: 0 <= k <= max ==> Transient(w, k)
    ensures RunCount(CallTrace(w).0) == max + 2
  {
    GivesUpAtTheEnd(w);
  }

  /** The events up to attempt `k` of the backoff, to which the rest of the call is still to be added. */
  ghost predicate SoFar(w: World, events: seq<Event>, k: nat) {
    CallTrace(w) == (events + RetryFrom(w, k).0, RetryFrom(w, k).1)
  }

  lemma StartsOn(w: World)
    requires w.first.Some? && IsRetriable(w.first.value)
    ensures SoFar(w, [Ran(w.first)], 0)
  {
  }

  lemma GoesFurther(w: World, events: seq<Event>, k: nat)
    requires SoFar(w, events, k)
    ensures var (more, err) := Try(w.attempts(k));
            if GoesOn(w, k, err) then SoFar(w, events + more, k + 1)
            else CallTrace(w) == (events + more, Final(w.attempts(k), err))
  {
    var (more, err) := Try(w.attempts(k));
    if GoesOn(w, k, err) {
      Assoc(events, more, RetryFrom(w, k + 1).0);
    }
  }

  // ---------- who owns the connection ----------

  class Conn {
    var closes: nat

    constructor ()
      ensures closes == 0
    {
      closes := 0;
    }

    method Close()
      modifies this
      ensures closes == old(closes) + 1
    {
      closes := closes + 1;
    }
  }

  class Querier {
    var querier: Conn
    ghost var built: set<Conn>

    /** Of all connections ever built only the current one is open, and the others were closed once. */
    ghost predicate OwnsOne()
      reads this, built
    {
      querier in built && querier.closes == 0 && forall c :: c in built && c != querier ==> c.closes == 1
    }

    constructor (conn: Conn)
      requires conn.closes == 0
      ensures OwnsOne() && querier == conn && built == {conn}
    {
      querier := conn;
      built := {conn};
    }

    /** `connErr` is the outcome of the connection builder. */
    method ResetConn(connErr: Option<Error>) returns (err: Option<Error>)
      requires OwnsOne()
      modifies this, querier
      ensures OwnsOne() && err == connErr
      ensures connErr.Some? ==> built == old(built) && querier == old(querier) && querier.closes == 0
      ensures connErr.None? ==> fresh(querier) && built == old(built) + {querier} && old(querier).closes == 1
    {
      if connErr.Some? {
        return connErr;
      }
      var conn := new Conn();
      querier.Close();
      querier := conn;
      built := built + {conn};
      return None;
    }

    /** Running the operation needs an open connection. */
    method Operate(outcome: Option<Error>) returns (err: Option<Error>)
      requires querier.closes == 0
      ensures err == outcome
    {
      return outcome;
    }

    /** The closure that the backoff repeats. */
    method RetryOnce(a: Attempt) returns (err: Option<Error>, events: seq<Event>)
      requires OwnsOne()
      modifies this, built
      ensures OwnsOne() && fresh(built - old(built)) && old(built) <= built
      ensures |built| == |old(built)| + Rebuilds(events)
      ensures (events, err) == Try(a)
    {
      var opErr := Operate(a.op);
      events := [Ran(opErr)];
      if opErr == None {
        return None, events;
      }
      if !IsRetriable(opErr.value) {
        return Some(Wrap([opErr.value, Permanent])), events;
      }
      var connErr := ResetConn(a.conn);
      events := events + [Reset(connErr == None)];
      assert events == [Ran(opErr), Reset(connErr == None)];
      RunsAppend([Ran(opErr)], [Reset(connErr == None)]);
      if connErr.Some? {
        return Some(Wrap([connErr.value])), events;
      }
      return opErr, events;
    }

    method WithRetry(w: World) returns (err: Option<Error>, events: seq<Event>)
      requires OwnsOne()
      modifies this, built
      ensures OwnsOne() && fresh(built - old(built)) && old(built) <= built
      ensures (events, err) == CallTrace(w)
      ensures |built| == |old(built)| + Rebuilds(events)
    {
      err := Operate(w.first);
      events := [Ran(err)];
      if err == None || !IsRetriable(err.value) {
        return;
      }
      StartsOn(w);
      var tries := 0;
      while true
        invariant OwnsOne() && fresh(built - old(built)) && old(built) <= built
        invariant |built| == |old(built)| + Rebuilds(events)
        invariant SoFar(w, events, tries)
        decreases w.schedule.limit - tries
      {
        var a := w.attempts(tries);
        var more;
        err, more := RetryOnce(a);
        RunsAppend(events, more);
        GoesFurther(w, events, tries);
        events := events + more;
        if !GoesOn(w, tries, err) {
          err := Final(a, err);
          return;
        }
        tries := tries + 1;
      }
    }

    method Close()
      modifies querier
      ensures querier.closes == old(querier.closes) + 1
    {
      querier.Close();
    }
  }

  /** `NewQuerier`: no querier without a first connection. */
  method NewQuerier(connErr: Option<Error>) returns (q: Querier?, err: Option<Error>)
    ensures err == connErr && (q == null <==> connErr.Some?)
    ensures q != null ==> fresh(q) && fresh(q.built) && q.OwnsOne() && |q.built| == 1
  {
    if connErr.Some? {
      return null, connErr;
    }
    var conn := new Conn();
    q := new Querier(conn);
    return q, None;
  }

  function TotalRebuilds(worlds: seq<World>): nat {
    if worlds == [] then 0
    else TotalRebuilds(worlds[..|worlds| - 1]) + Rebuilds(CallTrace(worlds[|worlds| - 1]).0)
  }

  /** Any sequence of calls, each meeting any failures: afterwards exactly one of the connections
      ever built is open, it is the querier's, and each of the others was closed exactly once. */
  method CallAll(worlds: seq<World>) returns (q: Querier)
    ensures fresh(q) && q.OwnsOne()
    ensures |q.built| == 1 + TotalRebuilds(worlds)
    ensures |set c | c in q.built && c.closes == 0| == 1
  {
    var maybe, _ := NewQuerier(None);
    q := maybe;
    for i := 0 to |worlds|
      invariant fresh(q) && fresh(q.built) && q.OwnsOne()
      invariant |q.built| == 1 + TotalRebuilds(worlds[..i])
    {
      assert worlds[..i + 1][..i] == worlds[..i];
      var err, events := q.WithRetry(worlds[i]);
    }
    assert worlds[..|worlds|] == worlds;
    assert (set c | c in q.built && c.closes == 0) == {q.querier};
  }
}
