/** Postgres errors: mapping them to kinds, and whether an operation that met one is retried. */
module PgErrors {
  import opened Text

  datatype Kind =
    | RelationDoesNotExist | ConstraintViolation | PermissionDenied | SyntaxError | DataException
    | RelationAlreadyExists | RuleViolation | PreconditionFailed | CacheLookupFailed
    | ProgramLimitExceeded | FeatureNotSupported

  /** A Go error as a tree: `Wrap` is what `fmt.Errorf` makes of one or several %w operands. */
  datatype Error =
    | PgxNoRows | NoRows | ConnTimeout | Canceled | Permanent
    | PgError(code: string, message: string)
    | Mapped(kind: Kind, details: string)
    | Timeout(cause: Error)
    | Other(message: string)
    | Wrap(causes: seq<Error>)

  /** `errors.Is` for an error value, and `errors.As` for one known by its kind. */
  predicate Is(e: Error, target: Error) {
    e == target
    || match e
       case Timeout(cause) => Is(cause, target)
       case Wrap(causes) => exists i :: 0 <= i < |causes| && Is(causes[i], target)
       case _ => false
  }

  predicate IsFinal(kind: Kind) {
    kind in {PermissionDenied, ConstraintViolation, RelationAlreadyExists, RuleViolation, SyntaxError,
             RelationDoesNotExist, ProgramLimitExceeded, FeatureNotSupported}
  }

  /** `errors.As` finds one of the eight kinds that are not retried somewhere in the tree. */
  predicate HasFinalKind(e: Error) {
    match e
    case Mapped(kind, _) => IsFinal(kind)
    case Timeout(cause) => HasFinalKind(cause)
    case Wrap(causes) => exists i :: 0 <= i < |causes| && HasFinalKind(causes[i])
    case _ => false
  }

  /** `pgconn.Timeout`. */
  predicate HasTimeout(e: Error) {
    match e
    case Timeout(_) => true
    case Wrap(causes) => exists i :: 0 <= i < |causes| && HasTimeout(causes[i])
    case _ => false
  }

  /** `errors.As` with a `*PgError` target: the first one in depth-first order. */
  function FirstPgError(e: Error): Option<Error>
    decreases e, 1
  {
    match e
    case PgError(_, _) => Some(e)
    case Timeout(cause) => FirstPgError(cause)
    case Wrap(causes) => FirstPgErrorOf(causes)
    case _ => None
  }

  function FirstPgErrorOf(causes: seq<Error>): Option<Error>
    decreases causes, 0
  {
    if causes == [] then None
    else if FirstPgError(causes[0]).Some? then FirstPgError(causes[0])
    else FirstPgErrorOf(causes[1..])
  }

  /** The kind of an SQLSTATE code; internal errors count only when a cache lookup failed. */
  function KindOf(code: string, message: string): Option<Kind> {
    if code in ["42703", "42883", "42P01", "42P02", "42704"] then Some(RelationDoesNotExist)
    else if code in ["42601", "42000"] then Some(SyntaxError)
    else if code in ["428C9", "42939", "42809"] then Some(RuleViolation)
    else if code == "42501" then Some(PermissionDenied)
    else if code == "55000" then Some(PreconditionFailed)
    else if code == "XX000" then (if Contains(message, "cache lookup failed") then Some(CacheLookupFailed) else None)
    else if code == "0A000" then Some(FeatureNotSupported)
    else if code in ["42701", "42P03", "42P04", "42723", "42P05", "42P06", "42P07", "42712", "42710"]
    then Some(RelationAlreadyExists)
    else if "22" <= code then Some(DataException)
    else if "23" <= code then Some(ConstraintViolation)
    else if "54" <= code then Some(ProgramLimitExceeded)
    else None
  }

  /** The kind a Postgres error in the tree maps to, with its message. */
  function MappedKind(e: Error): Option<(Kind, string)> {
    match FirstPgError(e)
    case Some(PgError(code, message)) =>
      (match KindOf(code, message) case Some(k) => Some((k, message)) case None => None)
    case _ => None
  }

  function MapError(e: Error): Error {
    if HasTimeout(e) then Wrap([ConnTimeout, e])
    else if Is(e, PgxNoRows) then NoRows
    else
      match MappedKind(e)
      case Some((kind, message)) => Mapped(kind, message)
      case None => e
  }

  predicate IsRetriable(e: Error) {
    !HasFinalKind(MapError(e)) && !Is(e, Canceled)
  }

  /** Every node has at most one cause. */
  predicate SingleCause(e: Error) {
    match e
    case Timeout(cause) => SingleCause(cause)
    case Wrap(causes) => |causes| <= 1 && forall i :: 0 <= i < |causes| ==> SingleCause(causes[i])
    case _ => true
  }

  /** Behind a chain of single causes that ends in a Postgres error there is nothing else. */
  lemma {:induction false} OnlyOneCause(e: Error)
    requires SingleCause(e) && FirstPgError(e).Some?
    ensures !Is(e, PgxNoRows) && !Is(e, Canceled) && !HasFinalKind(e)
  {
    match e
    case Timeout(cause) => OnlyOneCause(cause);
    case Wrap(causes) =>
      if causes != [] {
        assert FirstPgErrorOf(causes[1..]) == None;
        OnlyOneCause(causes[0]);
      }
    case _ =>
  }

  /** The SQLSTATE codes whose errors are not retried, by class or one by one. */
  predicate IsFinalCode(code: string) {
    "23" <= code || "54" <= code
    || code in ["42501", "0A000", "42601", "42000", "428C9", "42939", "42809",
                "42703", "42883", "42P01", "42P02", "42704",
                "42701", "42P03", "42P04", "42723", "42P05", "42P06", "42P07", "42712", "42710"]
  }

  lemma FinalKinds(code: string, message: string)
    ensures IsFinalCode(code) <==> KindOf(code, message).Some? && IsFinal(KindOf(code, message).value)
  {
    assert "22" <= code ==> code[0] == '2' && code[1] == '2';
    assert "23" <= code ==> code[0] == '2' && code[1] == '3';
    assert "54" <= code ==> code[0] == '5' && code[1] == '4';
  }

  /** A Postgres error, however often it was wrapped, is retried exactly if its code is none of
      those; data exceptions and failed cache lookups are. */
  lemma RetriedCodes(e: Error, code: string, message: string)
    requires SingleCause(e) && FirstPgError(e) == Some(PgError(code, message)) && !HasTimeout(e)
    ensures IsRetriable(e) <==> !IsFinalCode(code)
  {
    OnlyOneCause(e);
    FinalKinds(code, message);
  }

  /** Which codes give which kind: no code gives two, and data exceptions, constraint violations and
      exceeded limits are whole classes. */
  lemma KindsOfCodes(code: string, message: string)
    ensures KindOf(code, message) == Some(DataException) <==> "22" <= code
    ensures KindOf(code, message) == Some(ConstraintViolation) <==> "23" <= code
    ensures KindOf(code, message) == Some(ProgramLimitExceeded) <==> "54" <= code
    ensures KindOf(code, message) == Some(PermissionDenied) <==> code == "42501"
    ensures KindOf(code, message) == Some(FeatureNotSupported) <==> code == "0A000"
    ensures KindOf(code, message) == Some(PreconditionFailed) <==> code == "55000"
    ensures KindOf(code, message) == Some(CacheLookupFailed)
            <==> code == "XX000" && Contains(message, "cache lookup failed")
    ensures KindOf(code, message) == Some(SyntaxError) <==> code in ["42601", "42000"]
    ensures KindOf(code, message) == Some(RuleViolation) <==> code in ["428C9", "42939", "42809"]
    ensures KindOf(code, message) == Some(RelationDoesNotExist)
            <==> code in ["42703", "42883", "42P01", "42P02", "42704"]
    ensures KindOf(code, message) == Some(RelationAlreadyExists)
            <==> code in ["42701", "42P03", "42P04", "42723", "42P05", "42P06", "42P07", "42712", "42710"]
  {
    assert "22" <= code ==> code[0] == '2' && code[1] == '2';
    assert "23" <= code ==> code[0] == '2' && code[1] == '3';
    assert "54" <= code ==> code[0] == '5' && code[1] == '4';
  }

  /** A Postgres error, wrapped or not, becomes that kind and keeps its message; a code without one
      leaves the error as it is. */
  lemma MapsToKind(e: Error, code: string, message: string)
    requires SingleCause(e) && FirstPgError(e) == Some(PgError(code, message)) && !HasTimeout(e)
    ensures MapError(e) == match KindOf(code, message)
                           case Some(kind) => Mapped(kind, message)
                           case None => e
  {
    OnlyOneCause(e);
  }

  lemma {:induction false} FoundInOrder(a: seq<Error>, b: seq<Error>)
    ensures FirstPgErrorOf(a + b) == if FirstPgErrorOf(a).Some? then FirstPgErrorOf(a) else FirstPgErrorOf(b)
    decreases |a|
  {
    if a == [] {
      assert a + b == b;
    } else {
      assert (a + b)[1..] == a[1..] + b && (a + b)[0] == a[0];
      FoundInOrder(a[1..], b);
    }
  }

  /** Of several Postgres errors the first one decides; a timeout is kept beside the error it came with;
      and otherwise finding no rows replaces everything. */
  lemma MapsFirst(e: Error, code: string, message: string, behind: seq<Error>)
    ensures FirstPgError(Wrap([PgError(code, message)] + behind)) == Some(PgError(code, message))
    ensures HasTimeout(e) ==> Is(MapError(e), ConnTimeout) && Is(MapError(e), e)
    ensures Is(e, PgxNoRows) && !HasTimeout(e) ==> MapError(e) == NoRows
  {
    FoundInOrder([PgError(code, message)], behind);
    if HasTimeout(e) {
      WrapTwo(ConnTimeout, e, ConnTimeout);
      WrapTwo(ConnTimeout, e, e);
    }
  }

  /** Every other error is retried unless it is, or wraps, a cancellation or one of the eight final
      kinds; finding no rows hides the final kinds beside it, and a timeout a Postgres error. */
  lemma OtherErrors(e: Error)
    requires FirstPgError(e) == None || HasTimeout(e)
    ensures IsRetriable(e) <==>
            !Is(e, Canceled) && (!HasFinalKind(e) || (Is(e, PgxNoRows) && !HasTimeout(e)))
  {
    WrapTwo(ConnTimeout, e, Canceled);
  }

  /** So a lost connection and a timeout are retried, finding no rows is too, a cancellation is not,
      and of the mapped kinds three are. */
  lemma DecisionsHere(message: string, kind: Kind)
    ensures IsRetriable(Other(message)) && IsRetriable(Timeout(Other(message))) && IsRetriable(PgxNoRows)
    ensures !IsRetriable(Canceled) && !IsRetriable(Timeout(Canceled))
    ensures IsRetriable(Mapped(kind, message)) <==> kind in {DataException, PreconditionFailed, CacheLookupFailed}
    ensures IsRetriable(Timeout(Mapped(kind, message))) <==> IsRetriable(Mapped(kind, message))
  {
    OtherErrors(Other(message));
    OtherErrors(Timeout(Other(message)));
    OtherErrors(PgxNoRows);
    OtherErrors(Canceled);
    OtherErrors(Timeout(Canceled));
    OtherErrors(Mapped(kind, message));
    OtherErrors(Timeout(Mapped(kind, message)));
  }

  // ---------- mapping before deciding ----------

  /** Mapping drops a cancellation when it replaces the whole tree by something retriable. */
  predicate LosesCancellation(e: Error) {
    Is(e, Canceled) && !HasTimeout(e)
    && (Is(e, PgxNoRows) || (MappedKind(e).Some? && !IsFinal(MappedKind(e).value.0)))
  }

  lemma WrapTwo(a: Error, b: Error, target: Error)
    ensures Is(Wrap([a, b]), target) <==> Wrap([a, b]) == target || Is(a, target) || Is(b, target)
    ensures HasFinalKind(Wrap([a, b])) <==> HasFinalKind(a) || HasFinalKind(b)
    ensures HasTimeout(Wrap([a, b])) <==> HasTimeout(a) || HasTimeout(b)
  {
    var causes := [a, b];
    assert causes[0] == a && causes[1] == b;
  }

  /** The decision is the same for an error that already went through the mapping, exactly when
      the mapping did not lose a cancellation. */
  lemma MappingKeepsDecision(e: Error)
    ensures IsRetriable(MapError(e)) == IsRetriable(e) <==> !LosesCancellation(e)
  {
    var m := MapError(e);
    if HasTimeout(e) {
      WrapTwo(ConnTimeout, e, Canceled);
      WrapTwo(ConnTimeout, m, Canceled);
    } else if Is(e, PgxNoRows) {
      assert MapError(NoRows) == NoRows && !HasFinalKind(NoRows) && !Is(NoRows, Canceled);
    } else if MappedKind(e).Some? {
      var (kind, message) := MappedKind(e).value;
      assert MapError(m) == m && HasFinalKind(m) == IsFinal(kind) && !Is(m, Canceled);
    } else {
      assert m == e;
    }
  }

  lemma {:induction false} ChainHasOneEnd(e: Error)
    requires SingleCause(e) && Is(e, Canceled)
    ensures !Is(e, PgxNoRows) && FirstPgError(e) == None
  {
    match e
    case Timeout(cause) => ChainHasOneEnd(cause);
    case Wrap(causes) =>
      ChainHasOneEnd(causes[0]);
      assert FirstPgErrorOf(causes[1..]) == None;
    case _ =>
  }

  /** For an error with a single chain of causes the decision never changes. */
  lemma SingleCauseKeepsDecision(e: Error)
    requires SingleCause(e)
    ensures IsRetriable(MapError(e)) == IsRetriable(e)
  {
    MappingKeepsDecision(e);
    if Is(e, Canceled) {
      ChainHasOneEnd(e);
    }
  }

  /** With two causes it can: a cancelled query that found no rows. */
  lemma TwoCausesMayChangeIt()
    ensures var e := Wrap([Canceled, PgxNoRows]); !IsRetriable(e) && IsRetriable(MapError(e))
  {
    var e := Wrap([Canceled, PgxNoRows]);
    WrapTwo(Canceled, PgxNoRows, Canceled);
    WrapTwo(Canceled, PgxNoRows, PgxNoRows);
    MappingKeepsDecision(e);
    assert LosesCancellation(e);
  }
}
