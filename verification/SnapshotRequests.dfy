/** Snapshot requests and the errors recorded with them. The objects the program mutates
    through pointers are classes; the values they hold are the datatypes the recorder's
    protocol is stated over. */
module SnapshotRequests {
  import opened Text

  const WILDCARD := "*"

  /** What one `SchemaErrors` object holds. */
  datatype Errs = Errs(schema: string, globals: seq<string>, tables: map<string, string>) {
    function WithGlobal(msg: string): Errs {
      this.(globals := globals + [msg])
    }

    function WithTable(table: string, msg: string): Errs {
      this.(tables := tables[table := msg])
    }
  }

  /** `Unset` is the empty status of a request that was not sent to the store yet. */
  datatype Status = Unset | Requested | InProgress | Completed

  /** A request as the store records it. */
  datatype Row = Row(schema: string, tables: seq<string>, status: Status, errors: Option<Errs>) {
    predicate HasFailedForTable(table: string) {
      status == Completed && IsTableError(errors, table)
    }
  }

  /** A missing object has no errors at all. */
  predicate IsGlobalError(e: Option<Errs>) {
    e.Some? && e.value.globals != []
  }

  predicate IsTableError(e: Option<Errs>, table: string) {
    e.Some?
    && (e.value.globals != []
        || (table == WILDCARD && e.value.tables != map[])
        || table in e.value.tables)
  }

  function FailedTables(e: Option<Errs>): set<string> {
    if e.Some? then e.value.tables.Keys else {}
  }

  /** Adding errors never makes a failed table look clean. */
  lemma ErrorsOnlyGrow(e: Errs, msg: string, table: string, other: string)
    ensures IsTableError(Some(e), other) ==> IsTableError(Some(e.WithGlobal(msg)), other)
    ensures IsTableError(Some(e), other) ==> IsTableError(Some(e.WithTable(table, msg)), other)
    ensures IsTableError(Some(e.WithGlobal(msg)), other) && IsGlobalError(Some(e.WithGlobal(msg)))
    ensures IsTableError(Some(e.WithTable(table, msg)), table)
    ensures IsTableError(Some(e.WithTable(table, msg)), WILDCARD)
    ensures IsTableError(Some(e.WithTable(table, msg)), other) ==>
              IsTableError(Some(e), other) || other == table || other == WILDCARD
  {
    assert table in e.WithTable(table, msg).tables;
  }

  /** A non-nil Go error as `errors.As` sees it, with references R to `SchemaErrors` objects;
      `SchemaErrs(None)` is the typed nil pointer behind a non-nil interface. */
  datatype GoErr<+R> =
    | Plain
    | SchemaErrs(ref: Option<R>)
    | ErrorsPtr(bySchema: map<string, Option<R>>)
    | ErrorsVal(bySchema: map<string, Option<R>>)
    | Wrapped(causes: seq<GoErr<R>>)

  /** `errors.As` with a `**Errors` target: depth first through the causes; an `Errors` value is passed over. */
  function AsErrorsPtr<R>(e: GoErr<R>): Option<map<string, Option<R>>>
    decreases e, 1
  {
    match e
    case ErrorsPtr(m) => Some(m)
    case Wrapped(causes) => AsErrorsPtrOf(causes)
    case _ => None
  }

  /** Depth first, in the order of the causes. */
  function AsErrorsPtrOf<R>(causes: seq<GoErr<R>>): Option<map<string, Option<R>>>
    decreases causes, 0
  {
    if causes == [] then None
    else if AsErrorsPtr(causes[0]).Some? then AsErrorsPtr(causes[0])
    else AsErrorsPtrOf(causes[1..])
  }

  /** `errors.As` with a `**SchemaErrors` target. */
  function AsSchemaErrors<R>(e: GoErr<R>): Option<Option<R>>
    decreases e, 1
  {
    match e
    case SchemaErrs(ref) => Some(ref)
    case Wrapped(causes) => AsSchemaErrorsOf(causes)
    case _ => None
  }

  function AsSchemaErrorsOf<R>(causes: seq<GoErr<R>>): Option<Option<R>>
    decreases causes, 0
  {
    if causes == [] then None
    else if AsSchemaErrors(causes[0]).Some? then AsSchemaErrors(causes[0])
    else AsSchemaErrorsOf(causes[1..])
  }

  /** Either a pointer found in the error, or a new object to allocate. */
  datatype Pick<+R> = Existing(ref: Option<R>) | Fresh(errs: Errs)

  /** `text` is what the error prints as. */
  function NewSchemaErrors<R>(schema: string, err: Option<GoErr<R>>, text: string): Pick<R> {
    if err.None? then Existing(None)
    else
      match AsSchemaErrors(err.value)
      case Some(ref) => Existing(ref)
      case None => Fresh(Errs(schema, [text], map[]))
  }

  /** The recorder's own choice of the errors of one schema. */
  function GetSchemaErrors<R>(schema: string, err: Option<GoErr<R>>, text: string): Pick<R> {
    if err.None? then Existing(None)
    else
      match AsErrorsPtr(err.value)
      case Some(m) => Existing(if schema in m then m[schema] else None)
      case None => NewSchemaErrors(schema, err, text)
  }

  /** There is no pointer to `Errors` or `SchemaErrors` in the tree; an `Errors` value is none. */
  predicate NoPointers(e: GoErr<nat>) {
    match e
    case SchemaErrs(_) => false
    case ErrorsPtr(_) => false
    case Wrapped(causes) => forall i :: 0 <= i < |causes| ==> NoPointers(causes[i])
    case _ => true
  }

  lemma {:induction false} NothingFound(e: GoErr<nat>)
    ensures NoPointers(e) <==> AsErrorsPtr<nat>(e) == None && AsSchemaErrors<nat>(e) == None
    decreases e, 1
  {
    match e
    case Wrapped(causes) => NothingFoundIn(causes);
    case _ =>
  }

  lemma {:induction false} NothingFoundIn(causes: seq<GoErr<nat>>)
    ensures (forall i :: 0 <= i < |causes| ==> NoPointers(causes[i]))
            <==> AsErrorsPtrOf<nat>(causes) == None && AsSchemaErrorsOf<nat>(causes) == None
    decreases causes, 0
  {
    if causes == [] {
    } else {
      NothingFound(causes[0]);
      NothingFoundIn(causes[1..]);
      assert forall i :: 1 <= i < |causes| ==> causes[i] == causes[1..][i - 1];
      assert forall i :: 0 <= i < |causes| - 1 ==> causes[1..][i] == causes[i + 1];
    }
  }

  /** Exactly the errors without such a pointer are one new global error of every schema; an `Errors`
      value is among them, whatever it says of the schemas. */
  lemma ErrorsValueIsGlobal(schema: string, err: GoErr<nat>, text: string)
    ensures GetSchemaErrors<nat>(schema, Some(err), text) == Fresh(Errs(schema, [text], map[])) <==> NoPointers(err)
  {
    NothingFound(err);
  }

  lemma {:induction false} FoundInOrder<R>(a: seq<GoErr<R>>, b: seq<GoErr<R>>)
    ensures AsErrorsPtrOf(a + b) == if AsErrorsPtrOf(a).Some? then AsErrorsPtrOf(a) else AsErrorsPtrOf(b)
    ensures AsSchemaErrorsOf(a + b) == if AsSchemaErrorsOf(a).Some? then AsSchemaErrorsOf(a) else AsSchemaErrorsOf(b)
    decreases |a|
  {
    if a == [] {
      assert a + b == b;
    } else {
      assert (a + b)[1..] == a[1..] + b && (a + b)[0] == a[0];
      FoundInOrder(a[1..], b);
    }
  }

  /** A pointer to `Errors` gives the schema's own entry and nothing for a schema it does not name; a
      pointer to `SchemaErrors` is every schema's; and wrapping changes neither, nor do causes behind
      the first that is such a pointer. */
  lemma PointerDecides(schema: string, found: map<string, Option<nat>>, ref: Option<nat>, behind: seq<GoErr<nat>>,
                       text: string)
    ensures GetSchemaErrors<nat>(schema, Some(Wrapped([ErrorsPtr(found)] + behind)), text) ==
            GetSchemaErrors<nat>(schema, Some(ErrorsPtr(found)), text) ==
            Existing(if schema in found then found[schema] else None)
    ensures GetSchemaErrors<nat>(schema, Some(SchemaErrs(ref)), text) == Existing(ref)
    ensures AsErrorsPtrOf<nat>(behind) == None ==>
              GetSchemaErrors<nat>(schema, Some(Wrapped([SchemaErrs(ref)] + behind)), text) == Existing(ref)
  {
    FoundInOrder<nat>([ErrorsPtr(found)], behind);
    FoundInOrder<nat>([SchemaErrs(ref)], behind);
    assert AsErrorsPtrOf<nat>([ErrorsPtr(found)]) == Some(found);
    assert AsSchemaErrorsOf<nat>([SchemaErrs(ref)]) == Some(ref);
    assert AsErrorsPtrOf<nat>([SchemaErrs(ref)]) == AsErrorsPtrOf<nat>([SchemaErrs(ref)][1..]);
  }

  class SchemaErrors {
    var schema: string
    var globalErrors: seq<string>
    var tableErrors: map<string, string>

    constructor (e: Errs)
      ensures View() == e
    {
      schema, globalErrors, tableErrors := e.schema, e.globals, e.tables;
    }

    function View(): Errs
      reads this
    {
      Errs(schema, globalErrors, tableErrors)
    }

    static function ViewOf(e: SchemaErrors?): Option<Errs>
      reads e
    {
      if e == null then None else Some(e.View())
    }

    static method AddGlobalError(e: SchemaErrors?, msg: string)
      modifies e
      ensures e != null ==> e.View() == old(e.View()).WithGlobal(msg)
    {
      if e == null {
        return;
      }
      e.globalErrors := e.globalErrors + [msg];
    }

    static method AddTableError(e: SchemaErrors?, table: string, err: Option<string>)
      modifies e
      ensures e != null ==>
                e.View() == if err == None then old(e.View()) else old(e.View()).WithTable(table, err.value)
    {
      if e == null || err == None {
        return;
      }
      e.tableErrors := e.tableErrors[table := err.value];
    }

    static method GetFailedTables(e: SchemaErrors?) returns (failed: seq<string>)
      ensures IsListingOf(failed, FailedTables(ViewOf(e)))
    {
      if e == null {
        return [];
      }
      failed := ListKeys(e.tableErrors.Keys);
    }
  }

  /** A nil map is a null reference here, because adding to it does not reach the caller. */
  class Errors {
    var bySchema: map<string, SchemaErrors?>

    constructor ()
      ensures bySchema == map[]
    {
      bySchema := map[];
    }

    static function Of(e: Errors?, schema: string): SchemaErrors?
      reads e
    {
      if e != null && schema in e.bySchema then e.bySchema[schema] else null
    }

    /** A missing schema gets the error's own object or a new one, a present one another message;
        a nil pointer stored for the schema swallows the error. */
    static method AddError(e: Errors?, schema: string, err: Option<GoErr<SchemaErrors>>, text: string)
      requires Of(e, schema) != null ==> err.Some?
      modifies e, Of(e, schema)
      ensures e != null ==> e.bySchema == old(e.bySchema)[schema := Of(e, schema)]
      ensures e != null && schema in old(e.bySchema) ==>
                Of(e, schema) == old(Of(e, schema))
                && (Of(e, schema) != null ==> Of(e, schema).View() == old(Of(e, schema).View()).WithGlobal(text))
      ensures e != null && schema !in old(e.bySchema) ==>
                match NewSchemaErrors(schema, err, text)
                case Existing(ref) => Of(e, schema) == if ref.Some? then ref.value else null
                case Fresh(errs) => Of(e, schema) != null && fresh(Of(e, schema)) && Of(e, schema).View() == errs
      ensures e != null && err.Some? && AsSchemaErrors(err.value) == None ==>
                (IsGlobalError(SchemaErrors.ViewOf(Of(e, schema))) <==>
                 !(schema in old(e.bySchema) && old(Of(e, schema)) == null))
    {
      if e == null {
        return;
      }
      if schema in e.bySchema {
        SchemaErrors.AddGlobalError(e.bySchema[schema], text);
        return;
      }
      var created: SchemaErrors? := null;
      match NewSchemaErrors(schema, err, text) {
        case Existing(ref) =>
          created := if ref.Some? then ref.value else null;
        case Fresh(errs) =>
          created := new SchemaErrors(errs);
      }
      e.bySchema := e.bySchema[schema := created];
    }
  }

  /** Ranging over a map's keys: some order, each key once. */
  method ListKeys(keys: set<string>) returns (listed: seq<string>)
    ensures IsListingOf(listed, keys)
  {
    listed := [];
    var left := keys;
    while left != {}
      invariant left <= keys
      invariant IsListingOf(listed, keys - left)
      decreases left
    {
      var key :| key in left;
      listed, left := listed + [key], left - {key};
    }
  }

  /** `s` names each element of `xs` exactly once. */
  ghost predicate IsListingOf(s: seq<string>, xs: set<string>) {
    && (forall x :: x in s <==> x in xs)
    && (forall i, j :: 0 <= i < j < |s| ==> s[i] != s[j])
  }

  class Request {
    const schema: string
    const tables: seq<string>
    var status: Status
    var errors: SchemaErrors?

    constructor (schema: string, tables: seq<string>)
      ensures this.schema == schema && this.tables == tables && status == Unset && errors == null
    {
      this.schema, this.tables, status, errors := schema, tables, Unset, null;
    }

    function View(): Row
      reads this, errors
    {
      Row(schema, tables, status, SchemaErrors.ViewOf(errors))
    }

    method MarkInProgress()
      modifies this`status
      ensures View() == old(View()).(status := InProgress)
    {
      status := InProgress;
    }

    /** What the error interface holds decides: a `*SchemaErrors`, nil or not, is recorded as
        that very object, so a typed nil pointer leaves the request clean. */
    method MarkCompleted(schema: string, err: Option<GoErr<SchemaErrors>>, text: string)
      modifies this`status, this`errors
      ensures status == Completed
      ensures match NewSchemaErrors(schema, err, text)
              case Existing(ref) => errors == if ref.Some? then ref.value else null
              case Fresh(e) => errors != null && fresh(errors) && errors.View() == e
      ensures err == Some(SchemaErrs(None)) ==> View() == old(View()).(status := Completed, errors := None)
    {
      status := Completed;
      var pick := NewSchemaErrors(schema, err, text);
      match pick {
        case Existing(ref) =>
          errors := if ref.Some? then ref.value else null;
        case Fresh(e) =>
          var created := new SchemaErrors(e);
          errors := created;
      }
    }
  }
}
